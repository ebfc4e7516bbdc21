/** The base-status registry of src/server.js: `defaultBases`,
    `normalizeBaseState`, `normalizeBaseEntry`, `loadBaseStates`,
    `saveBaseStates`, `makeBaseId`, and the transformations behind the
    bases update and create handlers. */
module Bases {
  import opened JsValues
  import opened Slugs
  import opened Storage

  datatype BaseState = Open | OpenLess | Closed

  /** A base record as stored: every field may be absent or of any JSON
      type. An array element that is not an object reads every field as
      `undefined` and is represented with all fields absent. */
  datatype RawBase = RawBase(id: Option<Value>, name: Option<Value>, state: Option<Value>)

  /** A normalised base record. */
  datatype Base = Base(id: string, name: string, state: BaseState)

  /** `normalizeBaseState`: the three known names map to their state, any
      other value (absent, another string, another type) to `open`. */
  function NormalizeBaseState(v: Option<Value>): (s: BaseState)
    ensures s == OpenLess <==> v == Some(Str("open_less"))
    ensures s == Closed <==> v == Some(Str("closed"))
    ensures s == Open <==> v != Some(Str("open_less")) && v != Some(Str("closed"))
  {
    if v == Some(Str("open")) then Open
    else if v == Some(Str("open_less")) then OpenLess
    else if v == Some(Str("closed")) then Closed
    else Open
  }

  /** The stored spelling of a state; normalising it gives the state back. */
  function StateName(s: BaseState): (name: string)
    ensures NormalizeBaseState(Some(Str(name))) == s
    ensures name in {"open", "open_less", "closed"}
  {
    match s
    case Open => "open"
    case OpenLess => "open_less"
    case Closed => "closed"
  }

  /** Characters kept by `.replace(/[^a-z0-9_\-]/g, "")`. */
  predicate IsIdChar(c: char) {
    ('a' <= c <= 'z') || ('0' <= c <= '9') || c == '_' || c == '-'
  }

  predicate ValidBaseId(id: string) {
    id != "" && forall i :: 0 <= i < |id| ==> IsIdChar(id[i])
  }

  /** What every normalised base satisfies: a clean id and a name with
      visible content. The 60-character bound on names is stated
      separately, as it needs the array-index bound. */
  predicate ValidBase(b: Base) {
    ValidBaseId(b.id) && b.name != "" && !IsSpace(b.name[0])
  }

  /** A name that one more clip turns into a fixpoint of clipping. */
  predicate ClipStable(x: string, n: nat) {
    Clip(Clip(x, n), n) == Clip(x, n)
  }

  /** A valid base whose name is already trimmed and short: normalising it
      again changes nothing. */
  predicate SettledBase(b: Base) {
    ValidBase(b) && Trimmed(b.name) && |b.name| <= 60
  }

  predicate DistinctIds(bases: seq<Base>) {
    forall i, j :: 0 <= i < j < |bases| ==> bases[i].id != bases[j].id
  }

  function Ids(bases: seq<Base>): set<string> {
    set i | 0 <= i < |bases| :: bases[i].id
  }

  /** `replace(/[^a-z0-9_\-]/g, "")`. */
  function KeepIdChars(s: string): (r: string)
    ensures forall i :: 0 <= i < |r| ==> IsIdChar(r[i])
    ensures (forall i :: 0 <= i < |s| ==> IsIdChar(s[i])) ==> r == s
  {
    if s == [] then []
    else (if IsIdChar(s[0]) then [s[0]] else []) + KeepIdChars(s[1..])
  }

  function DefaultBaseName(idx: nat): string {
    "LooooootyBase " + NatToString(idx + 1)
  }

  function DefaultBaseId(idx: nat): (id: string)
    ensures ValidBaseId(id)
  {
    "base_" + NatToString(idx + 1)
  }

  /** `normalizeBaseEntry(entry, idx)`. */
  function NormalizeBaseEntry(e: RawBase, idx: nat): (b: Base)
    ensures ValidBase(b)
    ensures idx < MaxArrayLength ==> |b.name| <= 60 && ClipStable(b.name, 60)
    ensures b.state == NormalizeBaseState(e.state)
  {
    Base(BaseId(e.id, idx), BaseName(e.name, idx), NormalizeBaseState(e.state))
  }

  /** The id part of `normalizeBaseEntry`: lower-cased, stripped to id
      characters, with `base_<idx+1>` when nothing is left. */
  function BaseId(field: Option<Value>, idx: nat): (id: string)
    ensures ValidBaseId(id)
  {
    var kept := KeepIdChars(Lower(Trim(ToStr(Or(field, Str(DefaultBaseId(idx)))))));
    if kept == "" then DefaultBaseId(idx) else kept
  }

  /** The name part of `normalizeBaseEntry`: clipped to 60 characters, with
      `LooooootyBase <idx+1>` when the clip is empty. */
  function BaseName(field: Option<Value>, idx: nat): (name: string)
    ensures name != "" && !IsSpace(name[0])
    ensures idx < MaxArrayLength ==> |name| <= 60 && ClipStable(name, 60)
  {
    BaseNameOrFallback(ToStr(Or(field, Str(DefaultBaseName(idx)))), idx)
  }

  function BaseNameOrFallback(text: string, idx: nat): (name: string)
    ensures name != "" && !IsSpace(name[0])
    ensures idx < MaxArrayLength ==> |name| <= 60 && ClipStable(name, 60)
  {
    var fallbackName := DefaultBaseName(idx);
    var safeName := Clip(text, 60);
    FallbackNameStable(idx);
    ClipIsStable(text, 60);
    if safeName == "" then fallbackName else safeName
  }

  lemma FallbackNameStable(idx: nat)
    ensures DefaultBaseName(idx) != "" && !IsSpace(DefaultBaseName(idx)[0])
    ensures idx < MaxArrayLength ==>
      |DefaultBaseName(idx)| <= 60 && ClipStable(DefaultBaseName(idx), 60)
  {
    IndexNumeralShort(idx);
    assert DefaultBaseName(idx)[0] == 'L' && !IsSpace('L');
    if idx < MaxArrayLength {
      var d := NatToString(idx + 1);
      var name := DefaultBaseName(idx);
      assert name[|name| - 1] == d[|d| - 1];
      ClipOfClean(name, 60);
    }
  }

  lemma ClipIsStable(s: string, n: nat)
    ensures ClipStable(Clip(s, n), n)
  {
    ClipClipSettles(s, n);
  }

  /** The stored form of a normalised base. */
  function ToRaw(b: Base): RawBase {
    RawBase(Some(Str(b.id)), Some(Str(b.name)), Some(Str(StateName(b.state))))
  }

  lemma IdCharsFixed(id: string)
    requires ValidBaseId(id)
    ensures Lower(Trim(id)) == id
    ensures KeepIdChars(id) == id
  {
    assert !IsSpace(id[0]) && !IsSpace(id[|id| - 1]);
    TrimOfTrimmed(id);
    assert forall i :: 0 <= i < |id| ==> LowerChar(id[i]) == id[i];
  }

  /** Normalising the stored form of a valid base keeps its id and state and
      clips its name. */
  lemma NormalizeValid(b: Base, idx: nat)
    requires ValidBase(b)
    ensures NormalizeBaseEntry(ToRaw(b), idx) == b.(name := Clip(b.name, 60))
  {
    BaseIdOfValid(b.id, idx);
    BaseNameOfValid(b.name, idx);
  }

  /** A valid id is read back as itself. */
  lemma BaseIdOfValid(id: string, idx: nat)
    requires ValidBaseId(id)
    ensures BaseId(Some(Str(id)), idx) == id
  {
    TextField(id, Str(DefaultBaseId(idx)));
    IdCharsFixed(id);
  }

  /** A name with visible content is read back as its clip. */
  lemma BaseNameOfValid(name: string, idx: nat)
    requires name != "" && !IsSpace(name[0])
    ensures BaseName(Some(Str(name)), idx) == Clip(name, 60)
  {
    TextField(name, Str(DefaultBaseName(idx)));
    assert TrimStart(name) == name;
    assert Clip(name, 60) != "";
  }

  /** A settled base survives a save and a reload unchanged. */
  lemma NormalizeSettled(b: Base, idx: nat)
    requires SettledBase(b)
    ensures NormalizeBaseEntry(ToRaw(b), idx) == b
  {
    NormalizeValid(b, idx);
    ClipOfClean(b.name, 60);
  }

  /** `defaultBases()`: six open bases. */
  function DefaultBases(): (r: seq<Base>)
    ensures |r| == 6
    ensures forall i :: 0 <= i < 6 ==> SettledBase(r[i]) && r[i].state == Open
    ensures DistinctIds(r)
  {
    var r := seq(6, i requires 0 <= i < 6 => DefaultBase(i));
    forall i, j | 0 <= i < j < 6
      ensures r[i].id != r[j].id
    {
      NumberedDistinct("looooootybase_", i + 1, j + 1);
    }
    r
  }

  function DefaultBase(i: nat): (b: Base)
    requires i < 6
    ensures SettledBase(b)
  {
    var n := NatToString(i + 1);
    var b := Base("looooootybase_" + n, DefaultBaseName(i), Open);
    assert |n| == 1;
    assert b.name[|b.name| - 1] == n[0];
    b
  }

  lemma NumberedDistinct(prefix: string, a: nat, b: nat)
    requires a != b
    ensures prefix + NatToString(a) != prefix + NatToString(b)
  {
    if prefix + NatToString(a) == prefix + NatToString(b) {
      assert (prefix + NatToString(a))[|prefix|..] == NatToString(a);
      assert (prefix + NatToString(b))[|prefix|..] == NatToString(b);
      NatToStringInjective(a, b);
    }
  }

  /** `loadBaseStates()`: the bases every handler starts from. */
  function LoadBases(s: Stored<RawBase>): (r: seq<Base>)
    ensures !(s.Array? && s.items != []) ==> r == DefaultBases()
    ensures s.Array? && s.items != [] ==> |r| == |s.items|
    ensures s.Array? && s.items != [] ==>
      forall i :: 0 <= i < |r| ==> r[i].state == NormalizeBaseState(s.items[i].state)
    ensures forall i :: 0 <= i < |r| ==> ValidBase(r[i])
    ensures (s.Array? ==> |s.items| <= MaxArrayLength) ==>
      forall i :: 0 <= i < |r| ==> |r[i].name| <= 60 && ClipStable(r[i].name, 60)
    ensures r != []
  {
    if s.Array? && s.items != [] then
      seq(|s.items|, i requires 0 <= i < |s.items| => NormalizeBaseEntry(s.items[i], i))
    else
      DefaultBases()
  }

  /** The file content `writeJson` leaves behind for a list of bases. */
  function Persist(bases: seq<Base>): (s: Stored<RawBase>)
    ensures s.Array? && |s.items| == |bases|
  {
    Array(seq(|bases|, i requires 0 <= i < |bases| => ToRaw(bases[i])))
  }

  /** `saveBaseStates(bases)`: each base is normalised again, at its new
      position, before it is written. */
  function SaveBases(bases: seq<Base>): Stored<RawBase> {
    Persist(seq(|bases|, i requires 0 <= i < |bases| => NormalizeBaseEntry(ToRaw(bases[i]), i)))
  }

  /** Reading back what a load wrote keeps every id and state and re-clips
      every name. */
  lemma ReloadValid(bases: seq<Base>)
    requires bases != []
    requires forall i :: 0 <= i < |bases| ==> ValidBase(bases[i])
    ensures LoadBases(Persist(bases)) == seq(|bases|, i requires 0 <= i < |bases| => bases[i].(name := Clip(bases[i].name, 60)))
  {
    var s := Persist(bases);
    forall i | 0 <= i < |bases|
      ensures LoadBases(s)[i] == bases[i].(name := Clip(bases[i].name, 60))
    {
      NormalizeValid(bases[i], i);
    }
  }

  /** Saving settled bases and loading them again gives them back. */
  lemma SaveLoadRoundTrip(bases: seq<Base>)
    requires bases != []
    requires forall i :: 0 <= i < |bases| ==> SettledBase(bases[i])
    ensures LoadBases(SaveBases(bases)) == bases
  {
    var normalized := seq(|bases|, i requires 0 <= i < |bases| => NormalizeBaseEntry(ToRaw(bases[i]), i));
    forall i | 0 <= i < |bases|
      ensures normalized[i] == bases[i]
    {
      NormalizeSettled(bases[i], i);
    }
    assert normalized == bases;
    ReloadValid(bases);
    forall i | 0 <= i < |bases|
      ensures bases[i].(name := Clip(bases[i].name, 60)) == bases[i]
    {
      ClipOfClean(bases[i].name, 60);
    }
  }

  /** Saving valid bases and loading them again keeps every id and state
      in place. */
  lemma SaveLoadKeepsIdsAndStates(bases: seq<Base>)
    requires bases != []
    requires forall i :: 0 <= i < |bases| ==> ValidBase(bases[i])
    ensures |LoadBases(SaveBases(bases))| == |bases|
    ensures forall i :: 0 <= i < |bases| ==>
      LoadBases(SaveBases(bases))[i].id == bases[i].id &&
      LoadBases(SaveBases(bases))[i].state == bases[i].state
  {
    var normalized := seq(|bases|, i requires 0 <= i < |bases| => NormalizeBaseEntry(ToRaw(bases[i]), i));
    forall i | 0 <= i < |bases|
      ensures normalized[i] == bases[i].(name := Clip(bases[i].name, 60))
    {
      NormalizeValid(bases[i], i);
    }
    ReloadValid(normalized);
  }

  /** Read-repair converges: the file written by the second load is read
      back unchanged by every later load. (The first rewrite may still
      change names, since `trim()` runs before `slice(0, 60)`.) */
  lemma ReadRepairSettles(s: Stored<RawBase>)
    requires s.Array? ==> |s.items| <= MaxArrayLength
    ensures var twice := LoadBases(Persist(LoadBases(s)));
      LoadBases(Persist(twice)) == twice
  {
    var once := LoadBases(s);
    ReloadValid(once);
    var twice := LoadBases(Persist(once));
    ReloadValid(twice);
    var clipped := seq(|twice|, i requires 0 <= i < |twice| => twice[i].(name := Clip(twice[i].name, 60)));
    forall i | 0 <= i < |twice|
      ensures clipped[i] == twice[i]
    {
      assert twice[i].name == Clip(once[i].name, 60);
      assert ClipStable(once[i].name, 60);
    }
    assert clipped == twice;
  }

  /** The base create and update requests, as the bases they produce. */

  function StateField(body: map<string, Value>, id: string): Option<Value> {
    var key := "state_" + id;
    if key in body then Some(body[key]) else None
  }

  /** The bases update handler's transformation: each base takes the state
      submitted for it, normalised; ids, names and order stay. */
  function UpdateBases(bases: seq<Base>, body: map<string, Value>): (r: seq<Base>)
    ensures |r| == |bases|
    ensures forall i :: 0 <= i < |r| ==>
      && r[i].id == bases[i].id && r[i].name == bases[i].name
      && r[i].state == NormalizeBaseState(StateField(body, bases[i].id))
    ensures Ids(r) == Ids(bases)
    ensures DistinctIds(r) <==> DistinctIds(bases)
    ensures forall i :: 0 <= i < |r| ==> (ValidBase(r[i]) <==> ValidBase(bases[i]))
    ensures forall i :: 0 <= i < |r| ==> (SettledBase(r[i]) <==> SettledBase(bases[i]))
  {
    seq(|bases|, i requires 0 <= i < |bases| =>
      bases[i].(state := NormalizeBaseState(StateField(body, bases[i].id))))
  }

  /** Saving updated valid bases and loading them again keeps every id in
      place and gives each base the state submitted for it. */
  lemma UpdateSaveLoadStates(bases: seq<Base>, body: map<string, Value>)
    requires bases != []
    requires forall i :: 0 <= i < |bases| ==> ValidBase(bases[i])
    ensures var after := LoadBases(SaveBases(UpdateBases(bases, body)));
      && |after| == |bases|
      && forall i :: 0 <= i < |after| ==>
           after[i].id == bases[i].id &&
           after[i].state == NormalizeBaseState(StateField(body, bases[i].id))
  {
    var updated := UpdateBases(bases, body);
    forall i | 0 <= i < |updated|
      ensures ValidBase(updated[i])
    {
      assert updated[i].id == bases[i].id && updated[i].name == bases[i].name;
    }
    SaveLoadKeepsIdsAndStates(updated);
  }

  /** The request the bases editor sends when nothing is changed: every
      base's current state under `state_<id>`. */
  function EditorBody(bases: seq<Base>): map<string, Value>
    requires DistinctIds(bases)
  {
    assert forall i, j :: 0 <= i < |bases| && 0 <= j < |bases| && i != j ==>
      "state_" + bases[i].id != "state_" + bases[j].id by {
      forall i, j | 0 <= i < |bases| && 0 <= j < |bases| && i != j
        ensures "state_" + bases[i].id != "state_" + bases[j].id
      {
        PrefixInjective("state_", bases[i].id, bases[j].id);
      }
    }
    map i | 0 <= i < |bases| :: "state_" + bases[i].id := Str(StateName(bases[i].state))
  }

  /** Submitting the editor unchanged leaves every base as it was. */
  lemma UpdateWithCurrentStates(bases: seq<Base>)
    requires DistinctIds(bases)
    ensures UpdateBases(bases, EditorBody(bases)) == bases
  {
    var body := EditorBody(bases);
    forall i | 0 <= i < |bases|
      ensures StateField(body, bases[i].id) == Some(Str(StateName(bases[i].state)))
    {
      var key := "state_" + bases[i].id;
      assert key in body;
      forall j | 0 <= j < |bases| && "state_" + bases[j].id == key
        ensures j == i
      {
        PrefixInjective("state_", bases[j].id, bases[i].id);
      }
      assert body[key] == Str(StateName(bases[i].state));
    }
  }

  lemma PrefixInjective(p: string, a: string, b: string)
    ensures p + a == p + b ==> a == b
  {
    if p + a == p + b {
      assert a == (p + a)[|p|..];
      assert b == (p + b)[|p|..];
    }
  }

  /** `makeBaseId(name, bases)`. */
  function BaseIdRoot(name: string): (root: string)
    ensures root != "" && SlugChars(root, '_') && |root| <= 40
  {
    assert SlugChars("base", '_');
    assert !IsSlugChar('_') && |"base"| <= 40;
    SlugRoot(Trim(Lower(name)), '_', "base")
  }

  function MakeBaseId(name: string, bases: seq<Base>): (id: string)
    ensures ValidBaseId(id)
    ensures id !in Ids(bases)
    ensures BaseIdRoot(name) !in Ids(bases) ==> id == BaseIdRoot(name)
    ensures BaseIdRoot(name) in Ids(bases) ==>
      exists n :: 2 <= n <= |Ids(bases)| + 1 && id == BaseIdRoot(name) + "_" + NatToString(n)
        && forall k :: 1 <= k < n ==> Candidate(BaseIdRoot(name), '_', k) in Ids(bases)
    ensures id == FreeId(BaseIdRoot(name), '_', Ids(bases))
  {
    var root := BaseIdRoot(name);
    FreeIdChars(root, '_', Ids(bases));
    FreeId(root, '_', Ids(bases))
  }

  /** The bases create handler's transformation: a blank name is refused,
      otherwise one open base with a fresh id is appended. */
  function CreateBase(bases: seq<Base>, nameField: Option<Value>): (r: Result<seq<Base>>)
    ensures r.Err? <==> Clip(FieldText(nameField), 60) == ""
    ensures r.Err? ==> r.refusal == BaseNameRequired
    ensures r.Ok? ==> |r.value| == |bases| + 1 && r.value[..|bases|] == bases
    ensures r.Ok? ==>
      var b := r.value[|bases|];
      && b.id !in Ids(bases) && ValidBase(b)
      && b.name == Clip(FieldText(nameField), 60)
      && b.state == Open
    ensures r.Ok? && DistinctIds(bases) ==> DistinctIds(r.value)
  {
    var name := Clip(FieldText(nameField), 60);
    if name == "" then Err(BaseNameRequired)
    else
      var b := Base(MakeBaseId(name, bases), name, Open);
      AppendFreshDistinct(bases, b);
      Ok(bases + [b])
  }

  /** Appending a base whose id is not yet used keeps the ids distinct. */
  lemma AppendFreshDistinct(bases: seq<Base>, b: Base)
    requires b.id !in Ids(bases)
    ensures DistinctIds(bases) ==> DistinctIds(bases + [b])
  {
    var r := bases + [b];
    assert forall i :: 0 <= i < |bases| ==> bases[i].id in Ids(bases);
    assert forall i :: 0 <= i < |bases| ==> r[i] == bases[i];
  }

  /** A created base survives its save and the next load with every id
      kept, so distinct ids stay distinct. */
  lemma CreateBaseSaveLoadDistinct(bases: seq<Base>, nameField: Option<Value>)
    requires forall i :: 0 <= i < |bases| ==> ValidBase(bases[i])
    requires DistinctIds(bases)
    requires CreateBase(bases, nameField).Ok?
    ensures var after := LoadBases(SaveBases(CreateBase(bases, nameField).value));
      |after| == |bases| + 1 && DistinctIds(after)
  {
    var created := CreateBase(bases, nameField).value;
    AppendValid(bases, created[|bases|]);
    assert created == bases + [created[|bases|]];
    SaveLoadKeepsIdsAndStates(created);
    SameIdsDistinct(created, LoadBases(SaveBases(created)));
  }

  lemma AppendValid(bases: seq<Base>, b: Base)
    requires forall i :: 0 <= i < |bases| ==> ValidBase(bases[i])
    requires ValidBase(b)
    ensures forall i :: 0 <= i < |bases + [b]| ==> ValidBase((bases + [b])[i])
  {
    forall i | 0 <= i < |bases + [b]|
      ensures ValidBase((bases + [b])[i])
    {
      if i < |bases| { assert (bases + [b])[i] == bases[i]; }
    }
  }

  /** Two lists with the same ids in the same places are alike in
      distinctness. */
  lemma SameIdsDistinct(a: seq<Base>, b: seq<Base>)
    requires |a| == |b| && forall i :: 0 <= i < |a| ==> a[i].id == b[i].id
    requires DistinctIds(a)
    ensures DistinctIds(b)
  {
    forall i, j | 0 <= i < j < |b|
      ensures b[i].id != b[j].id
    {
      assert a[i].id != a[j].id;
    }
  }
}
