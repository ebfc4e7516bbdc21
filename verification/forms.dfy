/** The application-form registry of src/server.js:
    `normalizeApplicationForm`, `defaultApplicationForms`,
    `loadApplicationForms`, `saveApplicationForms`, `findApplicationForm`,
    `makeApplicationFormId`, and the transformations behind the form
    create, update, toggle and delete handlers. */
module Forms {
  import opened JsValues
  import opened Inputs
  import opened Slugs
  import opened Storage
  import opened Settings

  /** A form record as stored; any field may be absent or of any JSON type.
      `question` is the single-question spelling older files may use. */
  datatype RawForm = RawForm(
    id: Option<Value>,
    name: Option<Value>,
    guildId: Option<Value>,
    roleId: Option<Value>,
    questions: Option<Value>,
    question: Option<Value>,
    active: Option<Value>,
    createdAt: Option<Value>)

  /** A normalised form. `createdAt` keeps whatever truthy value was stored. */
  datatype Form = Form(
    id: string,
    name: string,
    guildId: string,
    roleId: string,
    questions: seq<string>,
    active: bool,
    createdAt: Value)

  const MaxFormName: nat := 80
  const MaxQuestion: nat := 160

  /** What every normalised form satisfies. */
  predicate ValidForm(f: Form) {
    && f.id != "" && Trimmed(f.id)
    && f.name != "" && !IsSpace(f.name[0])
    && Trimmed(f.guildId) && Trimmed(f.roleId)
    && (forall i :: 0 <= i < |f.questions| ==> CleanText(f.questions[i], MaxQuestion))
  }

  function DefaultFormName(idx: nat): string {
    "Application " + NatToString(idx + 1)
  }

  function DefaultFormId(idx: nat): string {
    "form-" + NatToString(idx + 1)
  }

  lemma FallbacksClean(idx: nat)
    ensures DefaultFormId(idx) != "" && Trimmed(DefaultFormId(idx))
    ensures DefaultFormName(idx) != "" && Trimmed(DefaultFormName(idx))
    ensures idx < MaxArrayLength ==> |DefaultFormName(idx)| <= MaxFormName
  {
    var d := NatToString(idx + 1);
    var id, name := DefaultFormId(idx), DefaultFormName(idx);
    assert id[0] == 'f' && id[|id| - 1] == d[|d| - 1];
    assert name[0] == 'A' && name[|name| - 1] == d[|d| - 1];
    IndexNumeralShort(idx);
  }

  /** The list the questions are read from: an array `questions`, else a
      truthy single `question`, else nothing. A `questions` field that is
      not an array is ignored. */
  function QuestionSource(f: RawForm): seq<Value> {
    if f.questions.Some? && f.questions.value.List? then f.questions.value.items
    else if f.question.Some? && Truthy(f.question.value) then [f.question.value]
    else []
  }

  /** `normalizeApplicationForm(form, idx)`; `guildDefault` is `GUILD_ID`
      and `now` the current timestamp. */
  function NormalizeForm(f: RawForm, idx: nat, guildDefault: string, now: string): (r: Form)
    ensures ValidForm(r)
    ensures idx < MaxArrayLength ==> |r.name| <= MaxFormName
    ensures r.active <==> f.active != Some(Bool(false))
    ensures |r.questions| <= |QuestionSource(f)|
    ensures f.createdAt.Some? && Truthy(f.createdAt.value) ==> r.createdAt == f.createdAt.value
    ensures !(f.createdAt.Some? && Truthy(f.createdAt.value)) ==> r.createdAt == Str(now)
    ensures now != "" ==> Truthy(r.createdAt)
    ensures !Truthy(Or(f.guildId, Str(guildDefault))) ==> r.guildId == ""
  {
    var id := FormId(f.id, idx);
    var name := FormName(f.name, idx);
    var guild := GuildText(f.guildId, guildDefault);
    var role := Trim(FieldText(f.roleId));
    var questions := CleanList(QuestionSource(f), MaxQuestion);
    Form(id, name, guild, role, questions, f.active != Some(Bool(false)), Or(f.createdAt, Str(now)))
  }

  /** `String(form.guildId || GUILD_ID).trim()`. */
  function GuildText(field: Option<Value>, guildDefault: string): (g: string)
    ensures Trimmed(g)
    ensures !Truthy(Or(field, Str(guildDefault))) ==> g == ""
  {
    Trim(ToStr(Or(field, Str(guildDefault))))
  }

  function FormId(field: Option<Value>, idx: nat): (id: string)
    ensures id != "" && Trimmed(id)
  {
    IdOrFallback(Trim(ToStr(Or(field, Str(DefaultFormId(idx))))), idx)
  }

  function IdOrFallback(text: string, idx: nat): (id: string)
    requires Trimmed(text)
    ensures id != "" && Trimmed(id)
    ensures text != "" ==> id == text
  {
    FallbacksClean(idx);
    if text == "" then DefaultFormId(idx) else text
  }

  function FormName(field: Option<Value>, idx: nat): (name: string)
    ensures name != "" && !IsSpace(name[0])
    ensures idx < MaxArrayLength ==> |name| <= MaxFormName
  {
    FormNameOrFallback(ToStr(Or(field, Str(DefaultFormName(idx)))), idx)
  }

  function FormNameOrFallback(text: string, idx: nat): (name: string)
    ensures name != "" && !IsSpace(name[0])
    ensures idx < MaxArrayLength ==> |name| <= MaxFormName
    ensures Clip(text, MaxFormName) != "" ==> name == Clip(text, MaxFormName)
  {
    FallbacksClean(idx);
    var safeName := Clip(text, MaxFormName);
    if safeName == "" then DefaultFormName(idx) else safeName
  }

  /** A valid form that normalisation leaves alone: short trimmed name,
      trimmed questions, a truthy timestamp, and a guild that does not fall
      back to the configured one. */
  predicate SettledForm(f: Form, guildDefault: string) {
    && ValidForm(f)
    && Trimmed(f.name) && |f.name| <= MaxFormName
    && (forall i :: 0 <= i < |f.questions| ==> Trimmed(f.questions[i]))
    && Truthy(f.createdAt)
    && (f.guildId == "" ==> Trim(guildDefault) == "")
  }

  function QuestionValues(qs: seq<string>): (vs: seq<Value>)
    ensures |vs| == |qs|
    ensures forall i :: 0 <= i < |qs| ==> vs[i] == Str(qs[i])
  {
    seq(|qs|, i requires 0 <= i < |qs| => Str(qs[i]))
  }

  /** The stored form of a normalised form, as `writeJson` writes it. */
  function ToRawForm(f: Form): RawForm {
    RawForm(
      Some(Str(f.id)), Some(Str(f.name)), Some(Str(f.guildId)), Some(Str(f.roleId)),
      Some(List(QuestionValues(f.questions))), None,
      Some(Bool(f.active)), Some(f.createdAt))
  }

  /** A settled form survives a save and a reload unchanged, at any index. */
  lemma NormalizeSettledForm(f: Form, idx: nat, guildDefault: string, now: string)
    requires SettledForm(f, guildDefault)
    ensures NormalizeForm(ToRawForm(f), idx, guildDefault, now) == f
  {
    var e := ToRawForm(f);
    var r := NormalizeForm(e, idx, guildDefault, now);
    SettledId(f.id, idx);
    SettledName(f.name, idx);
    SettledText(f.guildId, guildDefault);
    SettledText(f.roleId, "");
    assert QuestionSource(e) == QuestionValues(f.questions);
    SettledQuestions(f.questions);
  }

  lemma SettledQuestions(qs: seq<string>)
    requires forall i :: 0 <= i < |qs| ==> CleanText(qs[i], MaxQuestion) && Trimmed(qs[i])
    ensures CleanList(QuestionValues(qs), MaxQuestion) == qs
  {
    ToStringArrayOfClean(qs, MaxQuestion);
    assert Elements(Some(List(QuestionValues(qs)))) == QuestionValues(qs);
    assert seq(|qs|, i requires 0 <= i < |qs| => Str(qs[i])) == QuestionValues(qs);
  }

  lemma SettledId(id: string, idx: nat)
    requires id != "" && Trimmed(id)
    ensures FormId(Some(Str(id)), idx) == id
  {
    TextField(id, Str(DefaultFormId(idx)));
    TrimOfTrimmed(id);
  }

  lemma SettledName(name: string, idx: nat)
    requires name != "" && Trimmed(name) && |name| <= MaxFormName
    ensures FormName(Some(Str(name)), idx) == name
  {
    TextField(name, Str(DefaultFormName(idx)));
    ClipOfClean(name, MaxFormName);
  }

  lemma SettledText(s: string, fallback: string)
    requires Trimmed(s)
    requires s == "" ==> Trim(fallback) == ""
    ensures Trim(ToStr(Or(Some(Str(s)), Str(fallback)))) == s
  {
    if s != "" {
      TextField(s, Str(fallback));
      TrimOfTrimmed(s);
    }
  }

  // ---------------------------------------------------------------------
  // Defaults, load and save

  const BaseMemberQuestions: seq<string> := [
    "When have you joined 2b2t for the first time?",
    "Have you leaked or griefed any base in the past?",
    "Do you own priority queue",
    "Were you part of any base that got griefed in the past?",
    "Is it okay for you to travel long distances on 2b2t?",
    "Why do you want to become a Base member",
    "Have you accidentally stumbled upon a major base in the past",
    "Add anything you want below"
  ]

  const VipQuestions: seq<string> := [
    "Have you been a Base member for more than 2 months already",
    "Did you ever get warned by Looooooty about something you did wrong at the base?",
    "Have you followed the rules of the group and never broke them?",
    "Add anything you will think that will increase your chances of becoming a VIP."
  ]

  const FallbackGuildId: string := "1374475620846928062"
  const FallbackBaseMemberRoleId: string := "1375496244163641414"
  const VipRoleId: string := "1374476630873084075"

  /** A question that fits `MaxQuestion` and ends in a non-space
      character. */
  predicate SolidQuestion(q: string) {
    q != "" && |q| <= MaxQuestion && !IsSpace(q[|q| - 1])
  }

  /** Cleaning keeps every solid question. */
  lemma SolidQuestionsClean(qs: seq<string>)
    requires forall i :: 0 <= i < |qs| ==> SolidQuestion(qs[i])
    ensures forall i :: 0 <= i < |qs| ==> CleanText(qs[i], MaxQuestion)
  {
    forall i | 0 <= i < |qs|
      ensures CleanText(qs[i], MaxQuestion)
    {
      EndsSolidNotBlank(qs[i]);
    }
  }

  /** Every built-in question is clean. */
  lemma DefaultQuestionsClean()
    ensures forall i :: 0 <= i < |BaseMemberQuestions| ==> CleanText(BaseMemberQuestions[i], MaxQuestion)
    ensures forall i :: 0 <= i < |VipQuestions| ==> CleanText(VipQuestions[i], MaxQuestion)
  {
    assert forall i :: 0 <= i < |BaseMemberQuestions| ==> SolidQuestion(BaseMemberQuestions[i]);
    SolidQuestionsClean(BaseMemberQuestions);
    assert forall i :: 0 <= i < |VipQuestions| ==> SolidQuestion(VipQuestions[i]);
    SolidQuestionsClean(VipQuestions);
  }

  /** `String(x || fallback).trim()` for a configuration string. */
  function SettingOr(setting: string, fallback: string): (r: string)
    ensures Trimmed(r)
  {
    Trim(if setting != "" then setting else fallback)
  }

  /** `defaultApplicationForms()`: the "Base Member" and "VIP" forms, both
      active, in the configured guild (or the built-in one). */
  function DefaultForms(cfg: Config, now: string): (r: seq<Form>)
    ensures |r| == 2
    ensures r[0].id == "base-member" && r[1].id == "vip"
    ensures r[0].name == "Base Member" && r[1].name == "VIP"
    ensures r[0].questions == BaseMemberQuestions && r[1].questions == VipQuestions
    ensures r[0].active && r[1].active
    ensures r[0].guildId == r[1].guildId == SettingOr(cfg.guildId, FallbackGuildId)
    ensures r[0].roleId == SettingOr(cfg.baseMemberRoleId, FallbackBaseMemberRoleId)
    ensures r[1].roleId == VipRoleId
  {
    var guild := SettingOr(cfg.guildId, FallbackGuildId);
    [
      Form("base-member", "Base Member", guild,
        SettingOr(cfg.baseMemberRoleId, FallbackBaseMemberRoleId),
        BaseMemberQuestions, true, Str(now)),
      Form("vip", "VIP", guild, VipRoleId, VipQuestions, true, Str(now))
    ]
  }

  /** Both built-in forms are valid and their ids differ. */
  lemma DefaultFormsValid(cfg: Config, now: string)
    ensures forall i :: 0 <= i < 2 ==> ValidForm(DefaultForms(cfg, now)[i])
    ensures DistinctFormIds(DefaultForms(cfg, now))
  {
    DefaultQuestionsClean();
    BuiltInShapeValid(DefaultForms(cfg, now));
  }

  /** Any two forms with the built-in ids and names, trimmed guild and
      role ids and clean questions are valid and distinct. */
  lemma BuiltInShapeValid(r: seq<Form>)
    requires |r| == 2
    requires r[0].id == "base-member" && r[1].id == "vip"
    requires r[0].name == "Base Member" && r[1].name == "VIP"
    requires Trimmed(r[0].guildId) && Trimmed(r[1].guildId)
    requires Trimmed(r[0].roleId) && Trimmed(r[1].roleId)
    requires forall i :: 0 <= i < |r[0].questions| ==> CleanText(r[0].questions[i], MaxQuestion)
    requires forall i :: 0 <= i < |r[1].questions| ==> CleanText(r[1].questions[i], MaxQuestion)
    ensures forall k :: 0 <= k < 2 ==> ValidForm(r[k])
    ensures DistinctFormIds(r)
  {
    assert r[0].id[0] == 'b' && r[0].id[|r[0].id| - 1] == 'r';
    assert r[1].id[0] == 'v' && r[1].id[|r[1].id| - 1] == 'p';
    assert r[0].name[0] == 'B' && r[1].name[0] == 'V';
  }

  /** `loadApplicationForms()`: the built-in forms when the file holds no
      non-empty array, otherwise every entry normalised at its index. */
  function LoadForms(s: Stored<RawForm>, cfg: Config, now: string): (r: seq<Form>)
    ensures !(s.Array? && s.items != []) ==> r == DefaultForms(cfg, now)
    ensures s.Array? && s.items != [] ==> |r| == |s.items|
    ensures s.Array? && s.items != [] ==> forall i :: 0 <= i < |r| ==>
      (r[i].active <==> s.items[i].active != Some(Bool(false)))
    ensures forall i :: 0 <= i < |r| ==> ValidForm(r[i])
    ensures s.Array? && 0 < |s.items| <= MaxArrayLength ==>
      forall i :: 0 <= i < |r| ==> |r[i].name| <= MaxFormName
    ensures r != []
  {
    if s.Array? && s.items != [] then
      seq(|s.items|, i requires 0 <= i < |s.items| => NormalizeForm(s.items[i], i, cfg.guildId, now))
    else
      DefaultFormsValid(cfg, now);
      DefaultForms(cfg, now)
  }

  function PersistForms(forms: seq<Form>): (s: Stored<RawForm>)
    ensures s.Array? && |s.items| == |forms|
  {
    Array(seq(|forms|, i requires 0 <= i < |forms| => ToRawForm(forms[i])))
  }

  /** `saveApplicationForms(forms)`: every form normalised again at its
      (possibly new) index before it is written. */
  function SaveForms(forms: seq<Form>, cfg: Config, now: string): Stored<RawForm> {
    PersistForms(seq(|forms|, i requires 0 <= i < |forms| =>
      NormalizeForm(ToRawForm(forms[i]), i, cfg.guildId, now)))
  }

  /** Saving settled forms and loading them again gives them back. */
  lemma SaveLoadFormsRoundTrip(forms: seq<Form>, cfg: Config, now: string, later: string)
    requires forms != []
    requires forall i :: 0 <= i < |forms| ==> SettledForm(forms[i], cfg.guildId)
    ensures LoadForms(SaveForms(forms, cfg, now), cfg, later) == forms
  {
    var normalized := seq(|forms|, i requires 0 <= i < |forms| =>
      NormalizeForm(ToRawForm(forms[i]), i, cfg.guildId, now));
    forall i | 0 <= i < |forms|
      ensures normalized[i] == forms[i]
    {
      NormalizeSettledForm(forms[i], i, cfg.guildId, now);
    }
    assert normalized == forms;
    var s := PersistForms(forms);
    forall i | 0 <= i < |forms|
      ensures LoadForms(s, cfg, later)[i] == forms[i]
    {
      NormalizeSettledForm(forms[i], i, cfg.guildId, later);
    }
  }

  // ---------------------------------------------------------------------
  // Lookup and ids

  function FormIds(forms: seq<Form>): set<string> {
    set i | 0 <= i < |forms| :: forms[i].id
  }

  predicate DistinctFormIds(forms: seq<Form>) {
    forall i, j :: 0 <= i < j < |forms| ==> forms[i].id != forms[j].id
  }

  /** `forms.findIndex((f) => String(f.id) === id)`, with `None` for -1. */
  function FindFormIndex(forms: seq<Form>, id: string): (r: Option<nat>)
    ensures r.None? <==> id !in FormIds(forms)
    ensures r.Some? ==> r.value < |forms| && forms[r.value].id == id
    ensures r.Some? ==> forall j :: 0 <= j < r.value ==> forms[j].id != id
  {
    if forms == [] then None
    else if forms[0].id == id then Some(0)
    else
      var rest := FindFormIndex(forms[1..], id);
      assert FormIds(forms) == {forms[0].id} + FormIds(forms[1..]) by {
        forall x | x in FormIds(forms) ensures x in {forms[0].id} + FormIds(forms[1..]) {
          var i :| 0 <= i < |forms| && forms[i].id == x;
          if i > 0 { assert forms[1..][i - 1].id == x; }
        }
        forall x | x in FormIds(forms[1..]) ensures x in FormIds(forms) {
          var i :| 0 <= i < |forms[1..]| && forms[1..][i].id == x;
          assert forms[i + 1].id == x;
        }
      }
      if rest.None? then None else Some(rest.value + 1)
  }

  /** `findApplicationForm(forms, formId)`: the first form with that id. */
  function FindForm(forms: seq<Form>, id: string): (r: Option<Form>)
    ensures r.None? <==> id !in FormIds(forms)
    ensures r.Some? ==> r.value.id == id && r.value in forms
    ensures r == (if FindFormIndex(forms, id).None? then None else Some(forms[FindFormIndex(forms, id).value]))
    ensures r.Some? ==>
      exists i :: 0 <= i < |forms| && forms[i] == r.value
        && forall j :: 0 <= j < i ==> forms[j].id != id
  {
    var i := FindFormIndex(forms, id);
    if i.None? then None else Some(forms[i.value])
  }

  /** The root of `makeApplicationFormId`: the name lower-cased (not
      trimmed) and slugged with `-`, or `form`. */
  function FormIdRoot(name: string): (root: string)
    ensures root != "" && SlugChars(root, '-') && |root| <= 40
  {
    assert SlugChars("form", '-');
    assert !IsSlugChar('-') && |"form"| <= 40;
    SlugRoot(Lower(if name == "" then "form" else name), '-', "form")
  }

  /** `makeApplicationFormId(name, forms)`. */
  function MakeFormId(name: string, forms: seq<Form>): (id: string)
    ensures id != "" && SlugChars(id, '-')
    ensures id !in FormIds(forms)
    ensures FormIdRoot(name) !in FormIds(forms) ==> id == FormIdRoot(name)
    ensures FormIdRoot(name) in FormIds(forms) ==>
      exists n :: 2 <= n <= |FormIds(forms)| + 1 && id == FormIdRoot(name) + "-" + NatToString(n)
        && forall k :: 1 <= k < n ==> Candidate(FormIdRoot(name), '-', k) in FormIds(forms)
    ensures id == FreeId(FormIdRoot(name), '-', FormIds(forms))
  {
    var root := FormIdRoot(name);
    FreeIdChars(root, '-', FormIds(forms));
    FreeId(root, '-', FormIds(forms))
  }

  // ---------------------------------------------------------------------
  // The form admin handlers' transformations

  /** The fields the create and update handlers read from a request. */
  datatype FormInput = FormInput(name: string, guildId: string, roleId: string, questions: seq<string>)

  /** The request checks shared by create and update, in their order:
      name required, then guild id, then role id. */
  function ValidateFormInput(
    nameField: Option<Value>, guildField: Option<Value>, roleField: Option<Value>,
    questionsField: Option<Value>): (r: Result<FormInput>)
    ensures Clip(FieldText(nameField), MaxFormName) == "" <==> r == Err(FormNameRequired)
    ensures r == Err(InvalidGuildId) <==>
      Clip(FieldText(nameField), MaxFormName) != "" && !IsSnowflake(Trim(FieldText(guildField)))
    ensures r == Err(InvalidRoleId) <==>
      && Clip(FieldText(nameField), MaxFormName) != ""
      && IsSnowflake(Trim(FieldText(guildField)))
      && !IsSnowflake(Trim(FieldText(roleField)))
    ensures r.Err? ==> r.refusal in {FormNameRequired, InvalidGuildId, InvalidRoleId}
    ensures r.Ok? ==> ValidInput(r.value)
    ensures r.Ok? ==> r.value.name != "" && |r.value.name| <= MaxFormName
    ensures r.Ok? ==> IsSnowflake(r.value.guildId) && IsSnowflake(r.value.roleId)
    ensures r.Ok? ==> r.value.questions == ToStringArray(questionsField, MaxQuestion)
  {
    var name := Clip(FieldText(nameField), MaxFormName);
    var guildId := Trim(FieldText(guildField));
    var roleId := Trim(FieldText(roleField));
    if name == "" then Err(FormNameRequired)
    else if !IsSnowflake(guildId) then Err(InvalidGuildId)
    else if !IsSnowflake(roleId) then Err(InvalidRoleId)
    else Ok(FormInput(name, guildId, roleId, ToStringArray(questionsField, MaxQuestion)))
  }

  /** The form create handler: one active form with a fresh id appended. */
  function CreateForm(forms: seq<Form>, input: FormInput, now: string): (r: seq<Form>)
    ensures |r| == |forms| + 1 && r[..|forms|] == forms
    ensures var f := r[|forms|];
      && f.id !in FormIds(forms)
      && f.name == input.name && f.guildId == input.guildId && f.roleId == input.roleId
      && f.questions == input.questions && f.active && f.createdAt == Str(now)
    ensures DistinctFormIds(forms) ==> DistinctFormIds(r)
  {
    var f := Form(MakeFormId(input.name, forms), input.name, input.guildId, input.roleId,
      input.questions, true, Str(now));
    assert forall i :: 0 <= i < |forms| ==> forms[i].id in FormIds(forms);
    forms + [f]
  }

  /** The form update handler: the first form with that id takes the new
      name, guild, role and questions; its id, `active` and `createdAt` and
      every other form stay. */
  function UpdateForm(forms: seq<Form>, id: string, input: FormInput): (r: Result<seq<Form>>)
    ensures r.Err? <==> id !in FormIds(forms)
    ensures r.Err? ==> r.refusal == FormNotFound
    ensures r.Ok? ==> |r.value| == |forms|
    ensures r.Ok? ==> var i := FindFormIndex(forms, id).value;
      && r.value[i] == Form(id, input.name, input.guildId, input.roleId, input.questions,
                            forms[i].active, forms[i].createdAt)
      && (forall j :: 0 <= j < |forms| && j != i ==> r.value[j] == forms[j])
  {
    var i := FindFormIndex(forms, id);
    if i.None? then Err(FormNotFound)
    else
      var f := forms[i.value];
      Ok(forms[i.value := f.(name := input.name, guildId := input.guildId,
        roleId := input.roleId, questions := input.questions)])
  }

  /** The form toggle handler: the first form with that id flips `active`. */
  function ToggleForm(forms: seq<Form>, id: string): (r: Result<seq<Form>>)
    ensures r.Err? <==> id !in FormIds(forms)
    ensures r.Err? ==> r.refusal == FormNotFound
    ensures r.Ok? ==> |r.value| == |forms|
    ensures r.Ok? ==> var i := FindFormIndex(forms, id).value;
      && r.value[i] == forms[i].(active := !forms[i].active)
      && (forall j :: 0 <= j < |forms| && j != i ==> r.value[j] == forms[j])
  {
    var i := FindFormIndex(forms, id);
    if i.None? then Err(FormNotFound)
    else Ok(forms[i.value := forms[i.value].(active := !forms[i.value].active)])
  }

  /** Toggling the same form twice restores the registry. */
  lemma ToggleTwice(forms: seq<Form>, id: string)
    requires id in FormIds(forms)
    ensures ToggleForm(forms, id).Ok?
    ensures ToggleForm(ToggleForm(forms, id).value, id) == Ok(forms)
  {
    var once := ToggleForm(forms, id).value;
    var i := FindFormIndex(forms, id).value;
    FindAfterFieldChange(forms, once, id, i);
    var twice := ToggleForm(once, id).value;
    assert |twice| == |forms|;
    assert forall j :: 0 <= j < |forms| ==> twice[j] == forms[j];
    assert twice == forms;
  }

  /** Changing fields other than the id of the first match leaves it the
      first match. */
  lemma FindAfterFieldChange(forms: seq<Form>, changed: seq<Form>, id: string, i: nat)
    requires FindFormIndex(forms, id) == Some(i)
    requires |changed| == |forms| && changed[i].id == id
    requires forall j :: 0 <= j < |forms| && j != i ==> changed[j] == forms[j]
    ensures FindFormIndex(changed, id) == Some(i)
  {
    assert changed[i].id in FormIds(changed);
  }

  /** The form delete handler: the first form with that id is removed and
      the others keep their order. */
  function DeleteForm(forms: seq<Form>, id: string): (r: Result<seq<Form>>)
    ensures r.Err? <==> id !in FormIds(forms)
    ensures r.Err? ==> r.refusal == FormNotFound
    ensures r.Ok? ==> var i := FindFormIndex(forms, id).value;
      r.value == forms[..i] + forms[i + 1..]
    ensures r.Ok? ==> |r.value| == |forms| - 1
    ensures r.Ok? && DistinctFormIds(forms) ==> id !in FormIds(r.value)
  {
    var i := FindFormIndex(forms, id);
    if i.None? then Err(FormNotFound)
    else
      var r := forms[..i.value] + forms[i.value + 1..];
      assert DistinctFormIds(forms) ==> id !in FormIds(r);
      Ok(r)
  }

  /** Saving valid forms and loading them again keeps every id and
      `active` flag in place. */
  lemma SaveLoadKeepsFormIds(forms: seq<Form>, cfg: Config, now: string, later: string)
    requires forms != []
    requires forall i :: 0 <= i < |forms| ==> ValidForm(forms[i])
    ensures |LoadForms(SaveForms(forms, cfg, now), cfg, later)| == |forms|
    ensures forall i :: 0 <= i < |forms| ==>
      LoadForms(SaveForms(forms, cfg, now), cfg, later)[i].id == forms[i].id &&
      LoadForms(SaveForms(forms, cfg, now), cfg, later)[i].active == forms[i].active
  {
    var normalized := seq(|forms|, i requires 0 <= i < |forms| =>
      NormalizeForm(ToRawForm(forms[i]), i, cfg.guildId, now));
    forall i | 0 <= i < |forms|
      ensures normalized[i].id == forms[i].id && normalized[i].active == forms[i].active
    {
      SettledId(forms[i].id, i);
    }
    var after := LoadForms(PersistForms(normalized), cfg, later);
    forall i | 0 <= i < |forms|
      ensures after[i].id == forms[i].id && after[i].active == forms[i].active
    {
      SettledId(normalized[i].id, i);
    }
  }

  /** A created form survives its save and the next load with every id
      kept, so distinct ids stay distinct. */
  lemma CreateFormSaveLoadDistinct(forms: seq<Form>, input: FormInput, cfg: Config, now: string, later: string)
    requires forall i :: 0 <= i < |forms| ==> ValidForm(forms[i])
    requires DistinctFormIds(forms)
    requires ValidInput(input)
    ensures var after := LoadForms(SaveForms(CreateForm(forms, input, now), cfg, now), cfg, later);
      |after| == |forms| + 1 && DistinctFormIds(after)
  {
    var created := CreateForm(forms, input, now);
    NewFormValid(forms, input, now);
    AppendValidForm(forms, created[|forms|]);
    assert created == forms + [created[|forms|]];
    SaveLoadKeepsFormIds(created, cfg, now, later);
    SameFormIdsDistinct(created, LoadForms(SaveForms(created, cfg, now), cfg, later));
  }

  lemma AppendValidForm(forms: seq<Form>, f: Form)
    requires forall i :: 0 <= i < |forms| ==> ValidForm(forms[i])
    requires ValidForm(f)
    ensures forall i :: 0 <= i < |forms + [f]| ==> ValidForm((forms + [f])[i])
  {
    forall i | 0 <= i < |forms + [f]|
      ensures ValidForm((forms + [f])[i])
    {
      if i < |forms| { assert (forms + [f])[i] == forms[i]; }
    }
  }

  /** Two lists with the same ids in the same places are alike in
      distinctness. */
  lemma SameFormIdsDistinct(a: seq<Form>, b: seq<Form>)
    requires |a| == |b| && forall i :: 0 <= i < |a| ==> a[i].id == b[i].id
    requires DistinctFormIds(a)
    ensures DistinctFormIds(b)
  {
    forall i, j | 0 <= i < j < |b|
      ensures b[i].id != b[j].id
    {
      assert a[i].id != a[j].id;
    }
  }

  /** What a request that passed `ValidateFormInput` satisfies. */
  predicate ValidInput(input: FormInput) {
    && input.name != "" && !IsSpace(input.name[0])
    && IsSnowflake(input.guildId) && IsSnowflake(input.roleId)
    && Trimmed(input.guildId) && Trimmed(input.roleId)
    && (forall i :: 0 <= i < |input.questions| ==> CleanText(input.questions[i], MaxQuestion))
  }

  lemma NewFormValid(forms: seq<Form>, input: FormInput, now: string)
    requires ValidInput(input)
    ensures ValidForm(CreateForm(forms, input, now)[|forms|])
  {
    var f := CreateForm(forms, input, now)[|forms|];
    SlugTrimmed(f.id);
  }

  lemma SlugTrimmed(s: string)
    requires s != "" && SlugChars(s, '-')
    ensures Trimmed(s)
  {
    assert IsSlugChar(s[0]) || s[0] == '-';
    assert IsSlugChar(s[|s| - 1]) || s[|s| - 1] == '-';
  }
}
