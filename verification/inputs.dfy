/** Input predicates of src/server.js: `toStringArray` and `isSnowflake`. */
module Inputs {
  import opened JsValues

  /** `.filter(Boolean)` on strings: the non-empty ones, in order. */
  function Compact(xs: seq<string>): (r: seq<string>)
    ensures |r| <= |xs|
    ensures forall i :: 0 <= i < |r| ==> r[i] != ""
    ensures forall x :: x in r <==> x in xs && x != ""
  {
    if xs == [] then []
    else (if xs[0] == "" then [] else [xs[0]]) + Compact(xs[1..])
  }

  /** Compaction distributes over concatenation, so it keeps the relative
      order of the surviving strings. */
  lemma {:induction false} CompactAppend(a: seq<string>, b: seq<string>)
    ensures Compact(a + b) == Compact(a) + Compact(b)
  {
    if a == [] {
      assert a + b == b;
    } else {
      var head := if a[0] == "" then [] else [a[0]];
      assert (a + b)[0] == a[0];
      assert (a + b)[1..] == a[1..] + b;
      CompactAppend(a[1..], b);
      calc {
        Compact(a + b);
        head + Compact(a[1..] + b);
        head + (Compact(a[1..]) + Compact(b));
        (head + Compact(a[1..])) + Compact(b);
        Compact(a) + Compact(b);
      }
    }
  }

  /** A list without empty strings is left as it is. */
  lemma {:induction false} CompactOfNonEmpty(xs: seq<string>)
    requires forall i :: 0 <= i < |xs| ==> xs[i] != ""
    ensures Compact(xs) == xs
  {
    if xs != [] {
      CompactOfNonEmpty(xs[1..]);
    }
  }

  /** `Array.isArray(v) ? v : v ? [v] : []`. */
  function Elements(v: Option<Value>): seq<Value> {
    if v.Some? && v.value.List? then v.value.items
    else if v.Some? && Truthy(v.value) then [v.value]
    else []
  }

  /** `String(v || "").trim().slice(0, maxLen)`. */
  function CleanItem(v: Value, maxLen: nat): string {
    Clip(ToStr(if Truthy(v) then v else Str("")), maxLen)
  }

  function CleanAll(items: seq<Value>, maxLen: nat): seq<string> {
    seq(|items|, i requires 0 <= i < |items| => CleanItem(items[i], maxLen))
  }

  /** Every string `toStringArray` and the question normaliser keep: not
      empty, not blank, within the length limit. */
  predicate CleanText(s: string, maxLen: nat) {
    s != "" && |s| <= maxLen && Trim(s) != ""
  }

  /** The items of a list after `.map(clean).filter(Boolean)`. */
  function CleanList(items: seq<Value>, maxLen: nat): (r: seq<string>)
    ensures |r| <= |items|
    ensures forall i :: 0 <= i < |r| ==> CleanText(r[i], maxLen)
  {
    var r := Compact(CleanAll(items, maxLen));
    assert forall i :: 0 <= i < |r| ==> CleanText(r[i], maxLen) by {
      forall i | 0 <= i < |r|
        ensures CleanText(r[i], maxLen)
      {
        assert r[i] in CleanAll(items, maxLen);
        var j :| 0 <= j < |items| && CleanAll(items, maxLen)[j] == r[i];
        CleanItemIsClean(items[j], maxLen);
      }
    }
    r
  }

  /** A cleaned item that survives the filter has visible content. */
  lemma CleanItemIsClean(v: Value, maxLen: nat)
    requires CleanItem(v, maxLen) != ""
    ensures CleanText(CleanItem(v, maxLen), maxLen)
  {
    ClipNotBlank(ToStr(if Truthy(v) then v else Str("")), maxLen);
  }

  /** `toStringArray(value, maxLen)`: a request field that may be absent, a
      single value or a repeated (array) value, as a list of clean strings. */
  function ToStringArray(value: Option<Value>, maxLen: nat): (r: seq<string>)
    ensures |r| <= |Elements(value)|
    ensures forall i :: 0 <= i < |r| ==> CleanText(r[i], maxLen)
  {
    CleanList(Elements(value), maxLen)
  }

  /** A submitted list of strings that are already clean comes back
      unchanged: nothing is dropped, reordered or clipped. */
  lemma ToStringArrayOfClean(xs: seq<string>, maxLen: nat)
    requires forall i :: 0 <= i < |xs| ==> xs[i] != "" && Trimmed(xs[i]) && |xs[i]| <= maxLen
    ensures ToStringArray(Some(List(seq(|xs|, i requires 0 <= i < |xs| => Str(xs[i])))), maxLen) == xs
  {
    var items := seq(|xs|, i requires 0 <= i < |xs| => Str(xs[i]));
    var cleaned := CleanAll(items, maxLen);
    forall i | 0 <= i < |xs|
      ensures cleaned[i] == xs[i]
    {
      CleanItemOfClean(xs[i], maxLen);
    }
    assert cleaned == xs;
    CompactOfNonEmpty(xs);
  }

  lemma CleanItemOfClean(s: string, maxLen: nat)
    requires s != "" && Trimmed(s) && |s| <= maxLen
    ensures CleanItem(Str(s), maxLen) == s
  {
    assert Truthy(Str(s));
    assert ToStr(Str(s)) == s;
    ClipOfClean(s, maxLen);
  }

  /** A blank entry anywhere in a submitted list is simply dropped; the
      entries after it move up one place. */
  lemma ToStringArrayDropsBlank(before: seq<Value>, blank: Value, after: seq<Value>, maxLen: nat)
    requires CleanItem(blank, maxLen) == ""
    ensures ToStringArray(Some(List(before + [blank] + after)), maxLen)
         == ToStringArray(Some(List(before + after)), maxLen)
  {
    var cb, ca := CleanAll(before, maxLen), CleanAll(after, maxLen);
    ToStringArrayOfList(before + [blank] + after, maxLen);
    ToStringArrayOfList(before + after, maxLen);
    CleanAllSplit(before, blank, after, maxLen);
    CleanAllAppend(before, after, maxLen);
    CompactDropsEmpty(cb, ca);
  }

  lemma CompactDropsEmpty(a: seq<string>, b: seq<string>)
    ensures Compact(a + [""] + b) == Compact(a + b)
  {
    CompactAppend(a + [""], b);
    CompactAppend(a, [""]);
    CompactAppend(a, b);
    assert Compact([""]) == [];
  }

  lemma ToStringArrayOfList(items: seq<Value>, maxLen: nat)
    ensures ToStringArray(Some(List(items)), maxLen) == Compact(CleanAll(items, maxLen))
  {
    assert Elements(Some(List(items))) == items;
  }

  lemma CleanAllSplit(before: seq<Value>, blank: Value, after: seq<Value>, maxLen: nat)
    requires CleanItem(blank, maxLen) == ""
    ensures CleanAll(before + [blank] + after, maxLen)
         == CleanAll(before, maxLen) + [""] + CleanAll(after, maxLen)
  {
    CleanAllAppend(before + [blank], after, maxLen);
    CleanAllAppend(before, [blank], maxLen);
    assert CleanAll([blank], maxLen) == [""];
  }

  lemma CleanAllAppend(a: seq<Value>, b: seq<Value>, maxLen: nat)
    ensures CleanAll(a + b, maxLen) == CleanAll(a, maxLen) + CleanAll(b, maxLen)
  {
    var ca, cb := CleanAll(a, maxLen), CleanAll(b, maxLen);
    var l, r := CleanAll(a + b, maxLen), ca + cb;
    assert |l| == |r|;
    forall i | 0 <= i < |l|
      ensures l[i] == r[i]
    {
      if i < |a| {
        assert (a + b)[i] == a[i];
        assert r[i] == ca[i];
      } else {
        assert (a + b)[i] == b[i - |a|];
        assert r[i] == cb[i - |a|];
      }
    }
  }

  /** `/^\d{17,20}$/.test(String(value || "").trim())` on a string value. */
  predicate IsSnowflake(s: string) {
    DigitRun(Trim(s))
  }

  predicate DigitRun(t: string) {
    17 <= |t| <= 20 && forall i :: 0 <= i < |t| ==> IsDigit(t[i])
  }

  /** The regular expression `^\d{17,20}$` run over a string: one scan
      that stops at the first non-digit. */
  method MatchDigitRun(t: string) returns (matched: bool)
    ensures matched <==> DigitRun(t)
  {
    if |t| < 17 || |t| > 20 {
      return false;
    }
    var i := 0;
    while i < |t|
      invariant 0 <= i <= |t|
      invariant forall j :: 0 <= j < i ==> IsDigit(t[j])
    {
      if !IsDigit(t[i]) {
        return false;
      }
      i := i + 1;
    }
    return true;
  }

  /** `isSnowflake(value)` for a string value. */
  method CheckSnowflake(s: string) returns (ok: bool)
    ensures ok <==> IsSnowflake(s)
    ensures ok ==> 17 <= |Trim(s)| <= 20
  {
    ok := MatchDigitRun(Trim(s));
  }
}
