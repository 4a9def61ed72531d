/** Names for uploaded files (`agent/src/files_upload.rs`) and the check on relative paths they have to pass
    (`agent/src/files.rs`).

    A directory is the set of names that exist in it. `parentOk` says whether its path resolves inside the
    workspace, which for every candidate name is the same question.
 */
module UploadNames {
  import opened Common
  import opened Text

  const MAX_SUFFIX_ATTEMPTS: nat := 999

  predicate IsSep(c: char) {
    c == '/' || c == '\\'
  }

  predicate HasSep(s: string) {
    exists i :: 0 <= i < |s| && IsSep(s[i])
  }

  // ---------- The path check ----------

  /** `s.split(['/', '\\'])` */
  function Segments(s: string): (r: seq<string>)
    ensures r != []
  {
    if s == "" then [""]
    else if IsSep(s[0]) then [""] + Segments(s[1..])
    else
      var rest := Segments(s[1..]);
      [[s[0]] + rest[0]] + rest[1..]
  }

  predicate ValidRelPath(rel: string) {
    && rel != ""
    && !Contains(rel, '\0')
    && !IsSep(rel[0])
    && ".." !in Segments(rel)
  }

  /** `s.trim_end_matches('/')` */
  function TrimEndSlashes(s: string): string {
    if s != "" && s[|s| - 1] == '/' then TrimEndSlashes(s[..|s| - 1]) else s
  }

  function JoinRel(dirRel: string, name: string): string {
    if dirRel == "" then name else TrimEndSlashes(dirRel) + "/" + name
  }

  // ---------- Splitting and numbering a name ----------

  /** Stem and extension as `Path` sees them: the dot that starts a hidden file's name starts no extension. */
  function SplitStemExt(name: string): (r: (string, string))
    ensures (name == r.0 && r.1 == "") || name == r.0 + "." + r.1
    ensures !Contains(r.1, '.')
    ensures name != "" ==> r.0 != ""
  {
    if name == "." || name == ".." || !Contains(name, '.') then (name, "")
    else
      var i := LastDot(name);
      if i == 0 then (name, "")
      else
        assert name == name[..i] + "." + name[i + 1..];
        (name[..i], name[i + 1..])
  }

  function LastDot(s: string): (i: nat)
    requires Contains(s, '.')
    ensures i < |s| && s[i] == '.' && !Contains(s[i + 1..], '.')
  {
    if s[|s| - 1] == '.' then |s| - 1
    else
      var t := s[..|s| - 1];
      assert Contains(t, '.') by {
        var k :| 0 <= k < |s| && s[k] == '.';
        assert t[k] == '.';
      }
      var i := LastDot(t);
      assert s[i + 1..] == t[i + 1..] + [s[|s| - 1]];
      i
  }

  function Numbered(stem: string, ext: string, n: nat): string {
    if ext == "" then stem + " (" + Decimal(n) + ")" else stem + " (" + Decimal(n) + ")." + ext
  }

  function Candidate(name: string, n: nat): string {
    Numbered(SplitStemExt(name).0, SplitStemExt(name).1, n)
  }

  predicate ResolveNewName(name: string) {
    name != "" && name != "." && name != ".." && !HasSep(name) && !Contains(name, '\0')
  }

  lemma {:induction false} SlashesTrimmed(s: string) returns (slashes: nat)
    ensures s == TrimEndSlashes(s) + seq(slashes, _ => '/')
    ensures var t := TrimEndSlashes(s); t == "" || t[|t| - 1] != '/'
  {
    if s != "" && s[|s| - 1] == '/' {
      var n := SlashesTrimmed(s[..|s| - 1]);
      slashes := n + 1;
    } else {
      slashes := 0;
    }
  }

  /** The path of a name in a directory is the directory's, without slashes at its end, and then the name. */
  lemma JoinedPath(dirRel: string, name: string) returns (front: string, slashes: nat)
    requires dirRel != "" && !HasSep(name)
    ensures dirRel == front + seq(slashes, _ => '/') && (front == "" || front[|front| - 1] != '/')
    ensures JoinRel(dirRel, name) == front + "/" + name
    ensures Segments(JoinRel(dirRel, name)) == Segments(front) + [name]
  {
    slashes := SlashesTrimmed(dirRel);
    front := TrimEndSlashes(dirRel);
    assert front + "/" + name == front + ['/'] + name;
    SegmentsOfJoin(front, '/', name);
    OneSegment(name);
  }

  /** A candidate the search accepts. */
  predicate Accepts(dir: set<string>, parentOk: bool, dirRel: string, candidate: string) {
    candidate !in dir && ValidRelPath(JoinRel(dirRel, candidate)) && parentOk && ResolveNewName(candidate)
  }

  /** The suffix search: the least number whose candidate is accepted, if there is one up to the bound. */
  method NextFreeSuffix(dir: set<string>, parentOk: bool, dirRel: string, name: string)
    returns (found: Option<(nat, string, string)>)
    ensures found.Some? ==>
      var (n, candidate, rel) := found.value;
      && 1 <= n <= 999
      && candidate == Candidate(name, n) && rel == JoinRel(dirRel, candidate)
      && Accepts(dir, parentOk, dirRel, candidate)
      && candidate !in dir && parentOk && rel != "" && !IsSep(rel[0]) && !Contains(rel, '\0') && ".." !in Segments(rel)
      && candidate !in {"", ".."} && !HasSep(candidate)
      && (forall m :: 1 <= m < n ==> !Accepts(dir, parentOk, dirRel, Candidate(name, m)))
    ensures found.None? <==>
      forall m :: 1 <= m <= 999 ==> !Accepts(dir, parentOk, dirRel, Candidate(name, m))
  {
    hide SplitStemExt, Decimal, TrimEndSlashes, Segments;
    var (stem, ext) := SplitStemExt(name);
    var n := 1;
    while n <= MAX_SUFFIX_ATTEMPTS
      invariant 1 <= n <= MAX_SUFFIX_ATTEMPTS + 1
      invariant forall m :: 1 <= m < n ==> !Accepts(dir, parentOk, dirRel, Candidate(name, m))
    {
      var candidate := if ext == "" then stem + " (" + Decimal(n) + ")" else stem + " (" + Decimal(n) + ")." + ext;
      assert candidate == Candidate(name, n);
      if candidate !in dir {
        var rel := if dirRel == "" then candidate else TrimEndSlashes(dirRel) + "/" + candidate;
        if ValidRelPath(rel) {
          if parentOk && ResolveNewName(candidate) {
            return Some((n, candidate, rel));
          }
        }
      }
      n := n + 1;
    }
    return None;
  }

  /** The number goes in front of the last dot, if that dot is not the first character and the name is not "..";
      a dot at the very end is lost. */
  lemma CandidateText(name: string, stem: string, ext: string, n: nat)
    requires name == stem + "." + ext && !Contains(ext, '.') && stem != "" && name != ".."
    ensures SplitStemExt(name) == (stem, ext)
    ensures Candidate(name, n) == stem + " (" + Decimal(n) + ")" + if ext == "" then "" else "." + ext
  {
    hide Decimal;
    assert name[|stem|] == '.';
    var i := LastDot(name);
    assert name[|stem| + 1..] == ext;
    assert i == |stem| && name[..|stem|] == stem;
    assert stem + " (" + Decimal(n) + ")." + ext == stem + " (" + Decimal(n) + ")" + ("." + ext);
  }

  /** Otherwise it goes at the end. */
  lemma CandidateWithoutExt(name: string, n: nat)
    requires name == ".." || forall i :: 1 <= i < |name| ==> name[i] != '.'
    ensures SplitStemExt(name) == (name, "")
    ensures Candidate(name, n) == name + " (" + Decimal(n) + ")"
  {
  }

  // ---------- Candidates are good names, all different ----------

  /** A name that has been sanitized, other than an empty one. */
  predicate CleanName(name: string) {
    name != "" && !HasSep(name) && !Contains(name, '\0')
  }

  lemma CandidateClean(name: string, n: nat)
    requires CleanName(name)
    ensures ResolveNewName(Candidate(name, n)) && Segments(Candidate(name, n)) == [Candidate(name, n)]
    ensures |Candidate(name, n)| > |name| && !IsSep(Candidate(name, n)[0])
  {
    var (stem, ext) := SplitStemExt(name);
    var c := Candidate(name, n);
    PlainParts(name);
    PlainConcat(stem, " (");
    PlainConcat(stem + " (", Decimal(n));
    PlainConcat(stem + " (" + Decimal(n), ")");
    PlainConcat(stem + " (" + Decimal(n), ").");
    PlainConcat(stem + " (" + Decimal(n) + ").", ext);
    assert |c| >= 4 && c[0] == stem[0];
    OneSegment(c);
  }

  predicate Plain(s: string) {
    forall i :: 0 <= i < |s| ==> !IsSep(s[i]) && s[i] != '\0'
  }

  lemma PlainConcat(a: string, b: string)
    requires Plain(a) && Plain(b)
    ensures Plain(a + b)
  {
  }

  lemma PlainParts(name: string)
    requires CleanName(name)
    ensures Plain(SplitStemExt(name).0) && (name == SplitStemExt(name).0 || Plain(SplitStemExt(name).1))
    ensures name == SplitStemExt(name).0 ==> SplitStemExt(name).1 == ""
    ensures |name| <= |SplitStemExt(name).0| + |SplitStemExt(name).1| + 1
  {
    hide LastDot;
    var (stem, ext) := SplitStemExt(name);
    assert Plain(name);
    if name != stem {
      assert name == stem + "." + ext;
      assert forall i :: 0 <= i < |stem| ==> stem[i] == name[i];
      assert forall i :: 0 <= i < |ext| ==> ext[i] == name[|stem| + 1 + i];
    }
  }

  lemma {:induction false} OneSegment(s: string)
    requires forall i :: 0 <= i < |s| ==> !IsSep(s[i])
    ensures Segments(s) == [s]
  {
    if s != "" {
      OneSegment(s[1..]);
      assert [s[0]] + s[1..] == s;
    }
  }

  lemma {:induction false} SegmentsOfJoin(a: string, c: char, b: string)
    requires IsSep(c)
    ensures Segments(a + [c] + b) == Segments(a) + Segments(b)
  {
    var s := a + [c] + b;
    if a == "" {
      assert s[1..] == b;
    } else {
      assert s[1..] == a[1..] + [c] + b;
      SegmentsOfJoin(a[1..], c, b);
    }
  }

  lemma {:induction false} TrimKeepsValid(dir: string)
    requires ValidRelPath(dir)
    ensures ValidRelPath(TrimEndSlashes(dir))
  {
    if dir[|dir| - 1] == '/' {
      var d := dir[..|dir| - 1];
      assert dir == d + ['/'] + "";
      SegmentsOfJoin(d, '/', "");
      TrimKeepsValid(d);
    }
  }

  /** In a valid directory, a clean name's candidates are rejected only because they exist. */
  lemma AcceptedIffFree(dir: set<string>, dirRel: string, name: string, n: nat)
    requires CleanName(name) && (dirRel == "" || ValidRelPath(dirRel))
    ensures Accepts(dir, true, dirRel, Candidate(name, n)) <==> Candidate(name, n) !in dir
  {
    var c := Candidate(name, n);
    CandidateClean(name, n);
    if dirRel != "" {
      TrimKeepsValid(dirRel);
      var t := TrimEndSlashes(dirRel);
      assert t + "/" + c == t + ['/'] + c;
      SegmentsOfJoin(t, '/', c);
    }
  }

  lemma CandidatesDistinct(name: string, m: nat, n: nat)
    requires m != n
    ensures Candidate(name, m) != Candidate(name, n)
  {
    var (stem, ext) := SplitStemExt(name);
    var tail := if ext == "" then ")" else ")." + ext;
    var front := stem + " (";
    assert Candidate(name, m) == front + Decimal(m) + tail;
    assert Candidate(name, n) == front + Decimal(n) + tail;
    Inside(front, Decimal(m), tail);
    Inside(front, Decimal(n), tail);
    if Decimal(m) == Decimal(n) {
      DecimalInjective(m, n);
    }
  }

  lemma Inside(front: string, s: string, tail: string)
    ensures var c := front + s + tail; c[|front|..|c| - |tail|] == s
  {
  }

  function Candidates(name: string, k: nat): set<string> {
    set n | 1 <= n <= k :: Candidate(name, n)
  }

  lemma {:induction false} CandidatesCount(name: string, k: nat)
    ensures |Candidates(name, k)| == k
  {
    if k > 0 {
      CandidatesCount(name, k - 1);
      forall m | 1 <= m < k ensures Candidate(name, m) != Candidate(name, k) {
        CandidatesDistinct(name, m, k);
      }
      assert Candidates(name, k) == Candidates(name, k - 1) + {Candidate(name, k)};
    } else {
      assert Candidates(name, 0) == {};
    }
  }

  /** In a valid directory the search fails exactly when all 999 candidates are taken, so never while there are
      fewer than 999 entries, or fewer than a thousand if the name itself is one of them. */
  lemma SearchSucceeds(dir: set<string>, dirRel: string, name: string)
    requires CleanName(name) && (dirRel == "" || ValidRelPath(dirRel))
    ensures (forall m :: 1 <= m <= 999 ==> !Accepts(dir, true, dirRel, Candidate(name, m)))
      <==> Candidates(name, 999) <= dir
    ensures Candidates(name, 999) <= dir ==> |dir| >= 999
    ensures Candidates(name, 999) <= dir && name in dir ==> |dir| >= 1000
  {
    var all := Candidates(name, MAX_SUFFIX_ATTEMPTS);
    forall m | 1 <= m <= MAX_SUFFIX_ATTEMPTS
      ensures Candidate(name, m) in all && Candidate(name, m) != name
      ensures Accepts(dir, true, dirRel, Candidate(name, m)) <==> Candidate(name, m) !in dir
    {
      CandidateClean(name, m);
      AcceptedIffFree(dir, dirRel, name, m);
    }
    CandidatesCount(name, MAX_SUFFIX_ATTEMPTS);
    if all <= dir {
      SubsetSize(all, dir);
      if name in dir {
        SubsetSize(all + {name}, dir);
      }
    }
  }

  lemma {:induction false} SubsetSize(a: set<string>, b: set<string>)
    requires a <= b
    ensures |a| <= |b|
    decreases a
  {
    if x :| x in a {
      SubsetSize(a - {x}, b - {x});
    }
  }

  // ---------- Sanitizing ----------

  function Base(raw: string): string {
    if HasSep(raw) then Base(raw[1..]) else raw
  }

  function WithoutControls(s: string): string {
    if s == "" then ""
    else if s[0] in {'\0', '\n', '\r'} then WithoutControls(s[1..])
    else [s[0]] + WithoutControls(s[1..])
  }

  predicate IsWhitespace(c: char) {
    || '\U{9}' <= c <= '\U{D}' || c == ' ' || c == '\U{85}' || c == '\U{A0}' || c == '\U{1680}'
    || '\U{2000}' <= c <= '\U{200A}' || c == '\U{2028}' || c == '\U{2029}' || c == '\U{202F}'
    || c == '\U{205F}' || c == '\U{3000}'
  }

  function Trim(s: string): string {
    if s == "" then ""
    else if IsWhitespace(s[0]) then Trim(s[1..])
    else if IsWhitespace(s[|s| - 1]) then Trim(s[..|s| - 1])
    else s
  }

  function SanitizeUploadName(raw: string): string {
    Trim(WithoutControls(Base(raw)))
  }

  predicate Sanitized(s: string) {
    && (forall i :: 0 <= i < |s| ==> !IsSep(s[i]) && s[i] !in {'\0', '\n', '\r'})
    && (s != "" ==> !IsWhitespace(s[0]) && !IsWhitespace(s[|s| - 1]))
  }

  lemma {:induction false} BaseHasNoSep(raw: string)
    ensures !HasSep(Base(raw))
    ensures !HasSep(raw) ==> Base(raw) == raw
  {
    if HasSep(raw) {
      BaseHasNoSep(raw[1..]);
    }
  }

  lemma {:induction false} ControlsGone(s: string)
    requires !HasSep(s)
    ensures forall i :: 0 <= i < |WithoutControls(s)| ==>
      !IsSep(WithoutControls(s)[i]) && WithoutControls(s)[i] !in {'\0', '\n', '\r'}
    ensures (forall i :: 0 <= i < |s| ==> s[i] !in {'\0', '\n', '\r'}) ==> WithoutControls(s) == s
  {
    if s != "" {
      assert forall i :: 0 <= i < |s| - 1 ==> s[1..][i] == s[i + 1];
      ControlsGone(s[1..]);
      assert [s[0]] + s[1..] == s;
    }
  }

  lemma {:induction false} TrimEnds(s: string)
    requires forall i :: 0 <= i < |s| ==> !IsSep(s[i]) && s[i] !in {'\0', '\n', '\r'}
    ensures Sanitized(Trim(s))
    ensures Sanitized(s) ==> Trim(s) == s
    decreases |s|
  {
    if s == "" {
    } else if IsWhitespace(s[0]) {
      TrimEnds(s[1..]);
    } else if IsWhitespace(s[|s| - 1]) {
      TrimEnds(s[..|s| - 1]);
    }
  }

  lemma {:induction false} BaseOfJoin(front: string, sep: char, name: string)
    requires IsSep(sep) && !HasSep(name)
    ensures Base(front + [sep] + name) == name
  {
    var s := front + [sep] + name;
    assert IsSep(s[|front|]);
    if front == "" {
      assert s[1..] == name;
    } else {
      assert s[1..] == front[1..] + [sep] + name;
      BaseOfJoin(front[1..], sep, name);
    }
  }

  /** Of a path only the last segment counts. */
  lemma SanitizeTakesBase(front: string, sep: char, name: string)
    requires IsSep(sep) && !HasSep(name)
    ensures SanitizeUploadName(front + [sep] + name) == SanitizeUploadName(name)
  {
    BaseOfJoin(front, sep, name);
    BaseHasNoSep(name);
  }

  /** NUL and line breaks are taken out, one by one, and nothing else is. */
  lemma {:induction false} ControlsOnly(a: string, c: char, b: string)
    ensures WithoutControls(a + [c] + b)
      == WithoutControls(a) + (if c in {'\0', '\n', '\r'} then "" else [c]) + WithoutControls(b)
  {
    var s := a + [c] + b;
    if a == "" {
      assert s[1..] == b;
    } else {
      assert s[1..] == a[1..] + [c] + b;
      ControlsOnly(a[1..], c, b);
    }
  }

  /** Only blanks are trimmed, at the two ends. */
  lemma {:induction false} BlanksOnly(s: string) returns (front: string, back: string)
    ensures s == front + Trim(s) + back
    ensures forall i :: 0 <= i < |front| ==> IsWhitespace(front[i])
    ensures forall i :: 0 <= i < |back| ==> IsWhitespace(back[i])
    decreases |s|
  {
    hide IsWhitespace;
    front, back := "", "";
    if s != "" {
      if IsWhitespace(s[0]) {
        var rest;
        rest, back := BlanksOnly(s[1..]);
        front := [s[0]] + rest;
        assert s == [s[0]] + s[1..] == [s[0]] + (rest + Trim(s[1..]) + back);
      } else if IsWhitespace(s[|s| - 1]) {
        var rest;
        front, rest := BlanksOnly(s[..|s| - 1]);
        back := rest + [s[|s| - 1]];
        assert s == s[..|s| - 1] + [s[|s| - 1]] == (front + Trim(s[..|s| - 1]) + rest) + [s[|s| - 1]];
      }
    }
  }

  /** A sanitized name has no separator, no NUL or line break and no blank at either end; unless it is empty it
      is clean enough for the search. A name that is like that already is kept as it is. */
  lemma SanitizeCleans(raw: string)
    ensures Sanitized(SanitizeUploadName(raw))
    ensures SanitizeUploadName(raw) != "" ==> CleanName(SanitizeUploadName(raw))
    ensures SanitizeUploadName(SanitizeUploadName(raw)) == SanitizeUploadName(raw)
    ensures Sanitized(raw) ==> SanitizeUploadName(raw) == raw
  {
    BaseHasNoSep(raw);
    ControlsGone(Base(raw));
    TrimEnds(WithoutControls(Base(raw)));
    var s := SanitizeUploadName(raw);
    BaseHasNoSep(s);
    ControlsGone(s);
    TrimEnds(s);
  }
}
