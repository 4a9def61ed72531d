/** Range downloads (`agent/src/files.rs`): the header is parsed, clipped to the file and served
    (section 14.1.2 of RFC 9110, single ranges only). Lengths and offsets are `u64`; that no step leaves
    that range is part of what is proved, by their types.
 */
module HttpRange {
  import opened Common
  import opened Text

  type u64 = x: int | 0 <= x <= 0xFFFF_FFFF_FFFF_FFFF

  predicate StartsWith(s: string, prefix: string) {
    |prefix| <= |s| && s[..|prefix|] == prefix
  }

  /** `s.split_once('-')` */
  function SplitOnce(s: string): (r: Option<(string, string)>)
    ensures r.None? <==> !Contains(s, '-')
    ensures r.Some? ==> s == r.value.0 + "-" + r.value.1 && !Contains(r.value.0, '-')
  {
    var parts := Fields(s, '-', 2);
    SplitOnceFields(s);
    if |parts| == 2 then Some((parts[0], parts[1])) else None
  }

  lemma {:induction false} SplitOnceFields(s: string)
    ensures var parts := Fields(s, '-', 2);
      && |parts| == (if Contains(s, '-') then 2 else 1)
      && (|parts| == 2 ==> s == parts[0] + "-" + parts[1] && !Contains(parts[0], '-'))
  {
    if s != "" {
      assert s == [s[0]] + s[1..];
      if s[0] != '-' {
        SplitOnceFields(s[1..]);
        assert forall i :: 0 <= i < |s| - 1 ==> s[1..][i] == s[i + 1];
        assert Contains(s, '-') <==> Contains(s[1..], '-') by {
          if i :| 0 <= i < |s| && s[i] == '-' {
            assert s[1..][i - 1] == '-';
          }
        }
      } else {
        assert Fields(s[1..], '-', 1) == [s[1..]];
      }
    }
  }

  /** `parse_range` */
  function ParseRange(header: string, total: u64): (range: Option<(u64, u64)>) {
    if !StartsWith(header, "bytes=") then None
    else
      var s := header[6..];
      if Contains(s, ',') then None
      else if StartsWith(s, "-") then
        var n := ParseUnsigned(s[1..], U64_MAX);
        if n.None? || n.value == 0 || total == 0 then None
        else
          var n: u64 := Min(n.value, total);
          Some((total - n, total - 1))
      else
        var parts := SplitOnce(s);
        if parts.None? then None
        else
          var start := ParseUnsigned(parts.value.0, U64_MAX);
          var end := if parts.value.1 == "" then Some(U64_MAX) else ParseUnsigned(parts.value.1, U64_MAX);
          if start.None? || end.None? then None else Some((start.value, end.value))
  }

  datatype Response = Whole | NotSatisfiable | Partial(start: u64, end: u64, length: u64)

  /** What the handler answers for a file of `total` bytes. */
  function Respond(header: Option<string>, total: u64): (r: Response)
    ensures r.Partial? ==> r.start <= r.end < total && r.length == r.end - r.start + 1
  {
    var range := if header.Some? then ParseRange(header.value, total) else None;
    if range.None? then Whole
    else
      var (start, end) := range.value;
      if total == 0 || start >= total then NotSatisfiable
      else
        var clipped: u64 := Min(end, total - 1);
        if clipped < start then NotSatisfiable
        else Partial(start, clipped, clipped - start + 1)
  }

  type byte = b: int | 0 <= b < 256

  /** The handler: opens the file, seeks to the start of the range and streams it, a buffer at a time, up to its
      length. `None` is the internal error it answers when it cannot open the file or cannot seek. */
  method ApiFilesDownload(file: seq<byte>, header: Option<string>, opens: bool, seeks: bool, buffer: nat)
    returns (answer: Option<Response>, body: seq<byte>)
    requires |file| <= U64_MAX && buffer > 0
    ensures answer.Some? <==> opens && (Respond(header, |file|).Partial? ==> seeks)
    ensures answer.Some? ==> answer.value == Respond(header, |file|)
    ensures body == match answer
      case None => []
      case Some(Whole) => file
      case Some(NotSatisfiable) => []
      case Some(Partial(start, end, _)) => file[start..end + 1]
    ensures answer.Some? && answer.value.Partial? ==> |body| == answer.value.length
  {
    hide Respond;
    body := [];
    if !opens {
      return None, body;
    }
    var response := Respond(header, |file|);
    if response.NotSatisfiable? {
      return Some(response), body;
    }
    if response.Partial? && !seeks {
      return None, body;
    }
    answer := Some(response);
    var position := if response.Partial? then response.start else 0;
    var remaining := if response.Partial? then response.length else |file|;
    ghost var from := position;
    while remaining > 0
      invariant 0 <= remaining && from <= position && position + remaining <= |file|
      invariant position + remaining == if response.Partial? then response.end + 1 else |file|
      invariant body == file[from..position]
    {
      var n := if remaining < buffer then remaining else buffer;
      body := body + file[position..position + n];
      position := position + n;
      remaining := remaining - n;
    }
  }

  // ---------- The three forms ----------

  lemma RangeText(start: u64, rest: string)
    requires forall i :: 0 <= i < |rest| ==> IsDigit(rest[i])
    ensures var header := "bytes=" + Decimal(start) + "-" + rest; var s := Decimal(start) + "-" + rest;
      && StartsWith(header, "bytes=") && header[6..] == s
      && !Contains(s, ',') && !StartsWith(s, "-")
      && SplitOnce(s) == Some((Decimal(start), rest))
  {
    var d := Decimal(start);
    var s := d + "-" + rest;
    assert "bytes=" + d + "-" + rest == "bytes=" + s;
    assert s[0] == d[0];
    SplitAt(d, rest);
  }

  /** A range with both ends is served clipped to the file, and refused when it starts past the end of the file
      or ends before it starts. */
  lemma ClosedRange(start: u64, end: u64, total: u64)
    ensures Respond(Some("bytes=" + Decimal(start) + "-" + Decimal(end)), total)
      == if start >= total || end < start then NotSatisfiable
         else Partial(start, Min(end, total - 1), Min(end, total - 1) - start + 1)
  {
    RangeText(start, Decimal(end));
    ParseDecimal(start, U64_MAX);
    ParseDecimal(end, U64_MAX);
  }

  /** An open range is the rest of the file. */
  lemma OpenRange(start: u64, total: u64)
    ensures Respond(Some("bytes=" + Decimal(start) + "-"), total)
      == if start >= total then NotSatisfiable else Partial(start, total - 1, total - start)
  {
    RangeText(start, "");
    assert "bytes=" + Decimal(start) + "-" + "" == "bytes=" + Decimal(start) + "-";
    ParseDecimal(start, U64_MAX);
  }

  /** A suffix range is the last bytes of the file, all of them if it is shorter; for an empty suffix or an empty
      file the header is ignored. */
  lemma SuffixRange(n: u64, total: u64)
    ensures Respond(Some("bytes=-" + Decimal(n)), total)
      == if n == 0 || total == 0 then Whole else Partial(total - Min(n, total), total - 1, Min(n, total))
  {
    var header := "bytes=-" + Decimal(n);
    var s := "-" + Decimal(n);
    assert header == "bytes=" + s;
    assert header[6..] == s && s[1..] == Decimal(n);
    assert !Contains(s, ',');
    ParseDecimal(n, U64_MAX);
  }

  predicate IsNumber(s: string) {
    ParseUnsigned(s, U64_MAX).Some?
  }

  /** The header has the form that is acted on: a first and perhaps a last position, or the length of a suffix,
      which has to leave something to send. A number may have a leading plus sign, and leading zeros. */
  predicate HasForm(header: string, first: string, last: string, total: u64) {
    && header == "bytes=" + first + "-" + last
    && (|| (IsNumber(first) && (last == "" || IsNumber(last)))
        || (first == "" && IsNumber(last) && ParseUnsigned(last, U64_MAX).value > 0 && total > 0))
  }

  ghost predicate WellFormed(header: string, total: u64) {
    exists first, last :: HasForm(header, first, last, total)
  }

  lemma NumberHasNo(s: string, c: char)
    requires IsNumber(s) && c in {'-', ','}
    ensures !Contains(s, c) && s != ""
  {
    var digits := if s != [] && s[0] == '+' then s[1..] else s;
    assert forall i :: 0 <= i < |digits| ==> IsDigit(digits[i]);
    assert s[0] != '+' ==> digits == s;
    assert forall i :: 1 <= i < |s| && s[0] == '+' ==> s[i] == digits[i - 1];
  }

  /** Every other header is ignored, and the whole file is sent. */
  lemma IgnoredUnlessWellFormed(header: string, total: u64)
    ensures Respond(Some(header), total).Whole? <==> !WellFormed(header, total)
  {
    ActedOnIsWellFormed(header, total);
    if WellFormed(header, total) {
      var first, last :| HasForm(header, first, last, total);
      WellFormedIsActedOn(header, first, last, total);
    }
  }

  lemma ActedOnIsWellFormed(header: string, total: u64)
    ensures ParseRange(header, total).Some? ==> WellFormed(header, total)
  {
    hide ParseUnsigned, SplitOnce;
    if ParseRange(header, total).Some? {
      var s := header[6..];
      assert header == "bytes=" + s;
      if StartsWith(s, "-") {
        assert HasForm(header, "", s[1..], total);
      } else {
        var (first, last) := SplitOnce(s).value;
        assert HasForm(header, first, last, total);
      }
    }
  }

  lemma WellFormedIsActedOn(header: string, first: string, last: string, total: u64)
    requires HasForm(header, first, last, total)
    ensures ParseRange(header, total).Some?
  {
    var s := first + "-" + last;
    assert header == "bytes=" + s && header[6..] == s;
    if last != "" {
      NumberHasNo(last, ',');
    }
    if first == "" {
      assert s == ['-'] + last;
      assert StartsWith(s, "-") && s[1..] == last;
      NoComma("", last);
    } else {
      NumberHasNo(first, ',');
      NumberHasNo(first, '-');
      assert s[0] == first[0] && !StartsWith(s, "-");
      NoComma(first, last);
      SplitAt(first, last);
    }
  }

  lemma NoComma(first: string, last: string)
    requires !Contains(first, ',') && !Contains(last, ',')
    ensures !Contains(first + "-" + last, ',')
  {
  }

  lemma SplitAt(first: string, last: string)
    requires !Contains(first, '-')
    ensures SplitOnce(first + "-" + last) == Some((first, last))
  {
    var s := first + "-" + last;
    assert s == first + ['-'] + last;
    FieldsOfJoin(first, '-', last, 2);
    SplitOnceFields(s);
    assert Fields(last, '-', 1) == [last];
  }

  // ---------- A client that walks the file ----------

  function Slice(file: seq<byte>, r: Response): seq<byte>
    requires r.Partial? ==> r.start <= r.end < |file|
  {
    if r.Partial? then file[r.start..r.end + 1] else []
  }

  function ChunkRequest(position: u64, chunk: u64): string
    requires chunk > 0
  {
    "bytes=" + Decimal(position) + "-" + Decimal(Min(position + chunk - 1, U64_MAX))
  }

  /** The client asks for `chunk` bytes from where it is until it is told there are none; a whole file in answer
      to a range request would be taken as a failure. */
  function Walk(file: seq<byte>, position: nat, chunk: u64): Option<seq<byte>>
    requires position <= |file| <= U64_MAX && chunk > 0
    decreases |file| - position
  {
    var r := Respond(Some(ChunkRequest(position, chunk)), |file|);
    match r
    case Whole => None
    case NotSatisfiable => Some([])
    case Partial(start, _, length) =>
      if start != position || length == 0 then None
      else
        var rest := Walk(file, position + length, chunk);
        if rest.None? then None else Some(Slice(file, r) + rest.value)
  }

  /** Walking any file in chunks of any size until the 416 gives back exactly the file. */
  lemma {:induction false} WalkReassembles(file: seq<byte>, position: nat, chunk: u64)
    requires position <= |file| <= U64_MAX && chunk > 0
    ensures Walk(file, position, chunk) == Some(file[position..])
    decreases |file| - position
  {
    ChunkAnswer(position, chunk, |file|);
    var r := Respond(Some(ChunkRequest(position, chunk)), |file|);
    if position < |file| {
      var next: nat := position + r.length;
      WalkReassembles(file, next, chunk);
      SliceThen(file, position, next);
      assert Slice(file, r) == file[position..next];
    } else {
      assert file[position..] == [];
    }
  }

  lemma SliceThen(file: seq<byte>, a: nat, b: nat)
    requires a <= b <= |file|
    ensures file[a..b] + file[b..] == file[a..]
  {
  }

  lemma ChunkAnswer(position: u64, chunk: u64, total: u64)
    requires chunk > 0 && position <= total
    ensures var r := Respond(Some(ChunkRequest(position, chunk)), total);
      if position == total then r.NotSatisfiable? else r.Partial? && r.start == position
  {
    ClosedRange(position, Min(position + chunk - 1, U64_MAX), total);
  }
}
