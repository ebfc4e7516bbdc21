/** Identifier generation shared by `makeBaseId` and `makeApplicationFormId`
    (src/server.js): turn a display name into a slug root, then add the
    smallest numeric suffix that avoids every id already in use. */
module Slugs {
  import opened JsValues

  /** The characters `[a-z0-9]` that survive slugging. */
  predicate IsSlugChar(c: char) {
    ('a' <= c <= 'z') || ('0' <= c <= '9')
  }

  predicate HasSlugChar(s: string) {
    exists i :: 0 <= i < |s| && IsSlugChar(s[i])
  }

  predicate SlugChars(s: string, sep: char) {
    forall i :: 0 <= i < |s| ==> IsSlugChar(s[i]) || s[i] == sep
  }

  /** Drops the run of non-slug characters at the front of `s`. */
  function DropRun(s: string): (r: string)
    ensures |r| <= |s| && r == s[|s| - |r|..]
    ensures r == [] || IsSlugChar(r[0])
    ensures HasSlugChar(r) == HasSlugChar(s)
  {
    if s != [] && !IsSlugChar(s[0]) then
      HasSlugCharCons(s);
      var r := DropRun(s[1..]);
      assert s[1..][|s| - 1 - |r|..] == s[|s| - |r|..];
      r
    else s
  }

  lemma HasSlugCharCons(s: string)
    requires s != []
    ensures HasSlugChar(s) == (IsSlugChar(s[0]) || HasSlugChar(s[1..]))
  {
    if HasSlugChar(s) && !IsSlugChar(s[0]) {
      var i :| 0 <= i < |s| && IsSlugChar(s[i]);
      assert s[1..][i - 1] == s[i];
    }
    if HasSlugChar(s[1..]) {
      var i :| 0 <= i < |s[1..]| && IsSlugChar(s[1..][i]);
      assert s[i + 1] == s[1..][i];
    }
  }

  /** `.replace(/[^a-z0-9]+/g, sep)`: every maximal run of characters outside
      `[a-z0-9]` becomes one separator. */
  function ReplaceRuns(s: string, sep: char): (r: string)
    requires !IsSlugChar(sep)
    ensures SlugChars(r, sep)
    ensures HasSlugChar(r) == HasSlugChar(s)
    decreases |s|
  {
    if s == [] then []
    else if IsSlugChar(s[0]) then
      var r := [s[0]] + ReplaceRuns(s[1..], sep);
      HasSlugCharCons(s);
      HasSlugCharCons(r);
      assert r[1..] == ReplaceRuns(s[1..], sep);
      r
    else
      var r := [sep] + ReplaceRuns(DropRun(s[1..]), sep);
      HasSlugCharCons(s);
      HasSlugCharCons(r);
      assert r[1..] == ReplaceRuns(DropRun(s[1..]), sep);
      r
  }

  /** `.replace(/^sep+|sep+$/g, "")` on a string of slug characters and
      separators. */
  function StripLeading(s: string, sep: char): (r: string)
    requires !IsSlugChar(sep)
    requires SlugChars(s, sep)
    ensures SlugChars(r, sep)
    ensures r == [] || IsSlugChar(r[0])
    ensures HasSlugChar(r) == HasSlugChar(s)
  {
    if s != [] && s[0] == sep then
      HasSlugCharCons(s);
      StripLeading(s[1..], sep)
    else
      s
  }

  function StripTrailing(s: string, sep: char): (r: string)
    requires !IsSlugChar(sep)
    requires SlugChars(s, sep)
    ensures SlugChars(r, sep)
    ensures |r| <= |s| && r == s[..|r|]
    ensures r == [] || IsSlugChar(r[|r| - 1])
    ensures s != [] && IsSlugChar(s[0]) ==> r != []
  {
    if s != [] && s[|s| - 1] == sep then StripTrailing(s[..|s| - 1], sep) else s
  }

  /** Slug of an already lower-cased text: runs replaced, separators
      stripped from both ends, then clipped to 40 characters. */
  function Slug(text: string, sep: char): (r: string)
    requires !IsSlugChar(sep)
    ensures SlugChars(r, sep) && |r| <= 40
    ensures r == [] || IsSlugChar(r[0])
    ensures r == "" <==> !HasSlugChar(text)
  {
    var lead := StripLeading(ReplaceRuns(text, sep), sep);
    var stripped := StripTrailing(lead, sep);
    assert lead != [] ==> stripped != [] && stripped[0] == lead[0];
    assert lead != [] ==> HasSlugChar(lead);
    Take(stripped, 40)
  }

  /** `slug || fallback`. */
  function SlugRoot(text: string, sep: char, fallback: string): (r: string)
    requires !IsSlugChar(sep)
    requires fallback != "" && SlugChars(fallback, sep) && |fallback| <= 40
    ensures r != "" && SlugChars(r, sep) && |r| <= 40
    ensures HasSlugChar(text) ==> r == Slug(text, sep)
    ensures !HasSlugChar(text) ==> r == fallback
  {
    var s := Slug(text, sep);
    if s == "" then fallback else s
  }

  /** A text that is already a slug (slug characters separated by single
      separators, at most 40 of them) is its own slug. */
  lemma {:induction false} SlugOfSlug(s: string, sep: char)
    requires !IsSlugChar(sep)
    requires WellFormedSlug(s, sep)
    ensures Slug(s, sep) == s
  {
    ReplaceRunsOfSlug(s, sep);
    var r := ReplaceRuns(s, sep);
    assert StripLeading(r, sep) == r;
    assert StripTrailing(r, sep) == r;
  }

  predicate WellFormedSlug(s: string, sep: char) {
    && 0 < |s| <= 40
    && IsSlugChar(s[0]) && IsSlugChar(s[|s| - 1])
    && SlugChars(s, sep)
    && SepsFollowed(s, sep)
  }

  /** Every separator is followed by a slug character. */
  predicate SepsFollowed(s: string, sep: char) {
    forall i :: 0 <= i < |s| - 1 && s[i] == sep ==> IsSlugChar(s[i + 1])
  }

  lemma SepsFollowedTail(s: string, sep: char)
    requires s != [] && SepsFollowed(s, sep)
    ensures SepsFollowed(s[1..], sep)
  {
    var t := s[1..];
    forall i | 0 <= i < |t| - 1 && t[i] == sep
      ensures IsSlugChar(t[i + 1])
    {
      assert t[i] == s[i + 1] && t[i + 1] == s[i + 2];
    }
  }

  lemma {:induction false} ReplaceRunsOfSlug(s: string, sep: char)
    requires !IsSlugChar(sep)
    requires SlugChars(s, sep)
    requires s == [] || IsSlugChar(s[|s| - 1])
    requires SepsFollowed(s, sep)
    ensures ReplaceRuns(s, sep) == s
    decreases |s|
  {
    if s != [] {
      var t := s[1..];
      SepsFollowedTail(s, sep);
      assert SlugChars(t, sep);
      if IsSlugChar(s[0]) {
        ReplaceRunsOfSlug(t, sep);
        assert s == [s[0]] + t;
      } else {
        assert |s| >= 2 && IsSlugChar(s[1]);
        assert DropRun(t) == t;
        ReplaceRunsOfSlug(t, sep);
        assert s == [sep] + t;
      }
    }
  }

  // ---------------------------------------------------------------------
  // Numeric suffixes

  /** The k-th id tried: the root itself first, then `root + sep + k` for
      k = 2, 3, ... */
  function Candidate(root: string, sep: char, k: nat): string {
    if k < 2 then root else root + [sep] + NatToString(k)
  }

  lemma CandidatesDistinct(root: string, sep: char, i: nat, j: nat)
    requires 1 <= i < j
    ensures Candidate(root, sep, i) != Candidate(root, sep, j)
  {
    if i >= 2 && Candidate(root, sep, i) == Candidate(root, sep, j) {
      var n := |root| + 1;
      assert Candidate(root, sep, i)[n..] == NatToString(i);
      assert Candidate(root, sep, j)[n..] == NatToString(j);
      NatToStringInjective(i, j);
    }
  }

  /** The first k candidates, as a set. */
  function CandidateSet(root: string, sep: char, k: nat): set<string> {
    if k == 0 then {} else CandidateSet(root, sep, k - 1) + {Candidate(root, sep, k)}
  }

  lemma {:induction false} CandidateSetMembers(root: string, sep: char, k: nat, x: string)
    requires x in CandidateSet(root, sep, k)
    ensures exists j :: 1 <= j <= k && x == Candidate(root, sep, j)
  {
    if x != Candidate(root, sep, k) {
      CandidateSetMembers(root, sep, k - 1, x);
    }
  }

  lemma {:induction false} CandidateSetSize(root: string, sep: char, k: nat)
    ensures |CandidateSet(root, sep, k)| == k
  {
    if k > 0 {
      CandidateSetSize(root, sep, k - 1);
      if Candidate(root, sep, k) in CandidateSet(root, sep, k - 1) {
        CandidateSetMembers(root, sep, k - 1, Candidate(root, sep, k));
        var j :| 1 <= j <= k - 1 && Candidate(root, sep, k) == Candidate(root, sep, j);
        CandidatesDistinct(root, sep, j, k);
      }
    }
  }

  /** Pigeonhole: k pairwise distinct candidates that are all in use need at
      least k used ids, which is what bounds the suffix search. */
  lemma CandidatesBound(root: string, sep: char, used: set<string>, k: nat)
    requires forall j :: 1 <= j <= k ==> Candidate(root, sep, j) in used
    ensures k <= |used|
  {
    var c := CandidateSet(root, sep, k);
    forall x | x in c
      ensures x in used
    {
      CandidateSetMembers(root, sep, k, x);
    }
    CandidateSetSize(root, sep, k);
    assert used == c + (used - c);
  }

  /** The smallest index n >= k whose candidate is unused, given that all
      candidates before k are in use. */
  function FirstFree(root: string, sep: char, used: set<string>, k: nat): (n: nat)
    requires 1 <= k
    requires forall j :: 1 <= j < k ==> Candidate(root, sep, j) in used
    ensures k <= n <= |used| + 1
    ensures Candidate(root, sep, n) !in used
    ensures forall j :: 1 <= j < n ==> Candidate(root, sep, j) in used
    decreases |used| + 1 - k
  {
    CandidatesBound(root, sep, used, k - 1);
    if Candidate(root, sep, k) !in used then k
    else
      CandidatesBound(root, sep, used, k);
      FirstFree(root, sep, used, k + 1)
  }

  /** The id the suffix search settles on. */
  function FreeId(root: string, sep: char, used: set<string>): (id: string)
    ensures id !in used
    ensures root !in used ==> id == root
    ensures root in used ==>
      exists n :: 2 <= n <= |used| + 1 && id == root + [sep] + NatToString(n)
        && forall k :: 1 <= k < n ==> Candidate(root, sep, k) in used
  {
    var n := FirstFree(root, sep, used, 1);
    assert root in used ==> n >= 2;
    Candidate(root, sep, n)
  }

  /** Every id the search can produce from a slug root is made of slug
      characters and separators. */
  lemma CandidateChars(root: string, sep: char, k: nat)
    requires SlugChars(root, sep) && root != ""
    ensures SlugChars(Candidate(root, sep, k), sep) && Candidate(root, sep, k) != ""
  {
    if k >= 2 {
      var c := Candidate(root, sep, k);
      var d := NatToString(k);
      forall i | 0 <= i < |c|
        ensures IsSlugChar(c[i]) || c[i] == sep
      {
        if i < |root| {
          assert c[i] == root[i];
        } else if i > |root| {
          assert c[i] == d[i - |root| - 1];
        }
      }
    }
  }

  lemma FreeIdChars(root: string, sep: char, used: set<string>)
    requires SlugChars(root, sep) && root != ""
    ensures SlugChars(FreeId(root, sep, used), sep) && FreeId(root, sep, used) != ""
  {
    CandidateChars(root, sep, FirstFree(root, sep, used, 1));
  }

  /** The search loop of `makeBaseId` / `makeApplicationFormId`:
      `let id = root; let n = 2; while (used.has(id)) { id = root+sep+n; n += 1; }`.
      It stops after at most |used| + 1 probes. */
  method SearchFreeId(root: string, sep: char, used: set<string>) returns (id: string)
    ensures id !in used
    ensures root !in used ==> id == root
    ensures root in used ==> exists n :: 2 <= n <= |used| + 1 && id == root + [sep] + NatToString(n)
    ensures id == FreeId(root, sep, used)
  {
    id := root;
    var n := 2;
    while id in used
      invariant 2 <= n <= |used| + 2
      invariant id == Candidate(root, sep, n - 1)
      invariant forall j :: 1 <= j < n - 1 ==> Candidate(root, sep, j) in used
      decreases |used| + 2 - n
    {
      CandidatesBound(root, sep, used, n - 1);
      id := root + [sep] + NatToString(n);
      n := n + 1;
    }
    ghost var m := FirstFree(root, sep, used, 1);
    assert m == n - 1;
    if root in used {
      assert id == Candidate(root, sep, n - 1);
    }
  }
}
