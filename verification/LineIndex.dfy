/** The replay server's index of non-blank lines, kept up to date while the file grows, and paged reading. */
module LineIndex {
  import opened Wrappers

  predicate IsSpace(c: char) {
    c in {' ', '\t', '\n', '\r', 0x0b as char, 0x0c as char}
  }

  /** The white space of ASCII. */
  lemma SpacesByCode(c: char)
    ensures IsSpace(c) <==> c as int == 32 || 9 <= c as int <= 13
  {
  }

  predicate IsBlank(line: string) {
    forall i | 0 <= i < |line| :: IsSpace(line[i])
  }

  /** The end of the line that starts at or contains position i: after its newline, or at the end of the file. */
  function LineEnd(s: string, i: nat): (e: nat)
    requires i < |s|
    ensures i < e <= |s|
    ensures s[e - 1] == '\n' || e == |s|
    ensures forall j | i <= j < e - 1 :: s[j] != '\n'
    decreases |s| - i
  {
    if s[i] == '\n' || i + 1 == |s| then i + 1 else LineEnd(s, i + 1)
  }

  /** The lines from position i on, each with its newline. */
  function Lines(s: string, i: nat): (lines: seq<string>)
    requires i <= |s|
    decreases |s| - i
  {
    if i == |s| then [] else var e := LineEnd(s, i); [s[i..e]] + Lines(s, e)
  }

  function NonBlank(lines: seq<string>): seq<string> {
    if lines == [] then []
    else (if IsBlank(lines[0]) then [] else [lines[0]]) + NonBlank(lines[1..])
  }

  function Concat<T>(parts: seq<seq<T>>): seq<T> {
    if parts == [] then [] else parts[0] + Concat(parts[1..])
  }

  lemma {:induction false} LinesLoseNothing(s: string, i: nat)
    requires i <= |s|
    ensures Concat(Lines(s, i)) == s[i..]
    decreases |s| - i
  {
    if i < |s| {
      var e := LineEnd(s, i);
      LinesLoseNothing(s, e);
      assert s[i..] == s[i..e] + s[e..];
    }
  }

  /** Where the non-blank lines from position i on start. */
  function Scan(s: string, i: nat): (offsets: seq<nat>)
    requires i <= |s|
    decreases |s| - i
  {
    if i == |s| then []
    else
      var e := LineEnd(s, i);
      (if IsBlank(s[i..e]) then [] else [i]) + Scan(s, e)
  }

  lemma {:induction false} OffsetsIncrease(s: string, i: nat)
    requires i <= |s|
    ensures forall k | 0 <= k < |Scan(s, i)| :: i <= Scan(s, i)[k] < |s|
    ensures forall j, k | 0 <= j < k < |Scan(s, i)| :: Scan(s, i)[j] < Scan(s, i)[k]
    decreases |s| - i
  {
    if i < |s| {
      OffsetsIncrease(s, LineEnd(s, i));
    }
  }

  function LineAt(s: string, i: nat): string
    requires i < |s|
  {
    s[i..LineEnd(s, i)]
  }

  /** The offsets point at the non-blank lines, each once and in order. */
  lemma {:induction false} OffsetsPointAtLines(s: string, i: nat)
    requires i <= |s|
    ensures |Scan(s, i)| == |NonBlank(Lines(s, i))|
    ensures forall k | 0 <= k < |Scan(s, i)| ::
              Scan(s, i)[k] < |s| && LineAt(s, Scan(s, i)[k]) == NonBlank(Lines(s, i))[k]
    decreases |s| - i
  {
    if i < |s| {
      var e := LineEnd(s, i);
      OffsetsPointAtLines(s, e);
      assert Lines(s, i)[1..] == Lines(s, e);
    }
  }

  // ---- Growing files ----

  predicate AtBoundary(s: string) {
    s == "" || s[|s| - 1] == '\n'
  }

  function FirstLine(s: string): string {
    if s == "" then "" else LineAt(s, 0)
  }

  lemma {:induction false} LineEndInPrefix(a: string, b: string, i: nat)
    requires i < |a|
    ensures LineEnd(a + b, i) == LineEnd(a, i) || (LineEnd(a, i) == |a| && a[|a| - 1] != '\n')
    ensures LineEnd(a, i) == |a| && a[|a| - 1] != '\n' ==>
              LineEnd(a + b, i) == if b == "" then |a| else |a| + LineEnd(b, 0)
    decreases |a| - i
  {
    if a[i] != '\n' {
      if i + 1 < |a| {
        LineEndInPrefix(a, b, i + 1);
      } else if b != "" {
        LineEndShifts(a, b, 0);
      }
    }
  }

  lemma {:induction false} LineEndShifts(a: string, b: string, j: nat)
    requires j < |b|
    ensures LineEnd(a + b, |a| + j) == |a| + LineEnd(b, j)
    decreases |b| - j
  {
    if b[j] != '\n' && j + 1 < |b| {
      LineEndShifts(a, b, j + 1);
    }
  }

  lemma BlankConcat(a: string, b: string)
    ensures IsBlank(a + b) <==> IsBlank(a) && IsBlank(b)
  {
    if IsBlank(a + b) {
      assert forall i | 0 <= i < |a| :: a[i] == (a + b)[i];
      assert forall i | 0 <= i < |b| :: b[i] == (a + b)[|a| + i];
    }
  }

  function Head(blank: bool, i: nat): seq<nat> {
    if blank then [] else [i]
  }

  lemma ScanStep(s: string, i: nat)
    requires i < |s|
    ensures Scan(s, i) == Head(IsBlank(LineAt(s, i)), i) + Scan(s, LineEnd(s, i))
  {
  }

  /** Scanning only what was appended agrees with scanning everything, iff what was scanned before ended with a
      whole line or the text appended starts with a blank line. */
  lemma {:induction false} IncrementalAgrees(a: string, b: string, i: nat)
    requires i <= |a| && (i == |a| ==> AtBoundary(a))
    ensures Scan(a, i) + Scan(a + b, |a|) == Scan(a + b, i) <==> AtBoundary(a) || IsBlank(FirstLine(b))
    decreases |a| - i
  {
    if i == |a| {
      assert Scan(a, i) + Scan(a + b, |a|) == Scan(a + b, |a|);
    } else {
      var e := LineEnd(a, i);
      LineEndInPrefix(a, b, i);
      if e == |a| && a[|a| - 1] != '\n' {
        LastLineGrows(a, b, i);
      } else {
        assert LineAt(a + b, i) == LineAt(a, i);
        IncrementalAgrees(a, b, e);
        ScanStep(a, i);
        ScanStep(a + b, i);
        SameTails(Head(IsBlank(LineAt(a, i)), i), Scan(a, e), Scan(a + b, |a|), Scan(a + b, e));
      }
    }
  }

  lemma SameTails<T>(first: seq<T>, x: seq<T>, y: seq<T>, z: seq<T>)
    ensures (first + x) + y == first + z <==> x + y == z
  {
    assert (first + x) + y == first + (x + y);
    assert x + y == (first + (x + y))[|first|..];
    assert z == (first + z)[|first|..];
  }

  lemma SliceAcross(a: string, b: string, i: nat, j: nat)
    requires i <= |a| && j <= |b|
    ensures (a + b)[i..|a| + j] == a[i..] + b[..j]
  {
  }

  /** An unfinished line and the first line appended to it become one line. */
  lemma LinesJoin(a: string, b: string, i: nat)
    requires i < |a| && LineEnd(a, i) == |a| && a[|a| - 1] != '\n' && b != ""
    ensures LineEnd(a + b, i) == LineEnd(a + b, |a|)
    ensures IsBlank(LineAt(a + b, |a|)) == IsBlank(FirstLine(b))
    ensures IsBlank(LineAt(a + b, i)) <==> IsBlank(LineAt(a, i)) && IsBlank(FirstLine(b))
  {
    LineEndInPrefix(a, b, i);
    LineEndShifts(a, b, 0);
    SliceAcross(a, b, i, LineEnd(b, 0));
    SliceAcross(a, b, |a|, LineEnd(b, 0));
    assert LineAt(a, i) == a[i..] && LineAt(a + b, i) == LineAt(a, i) + FirstLine(b);
    assert a[|a|..] == "" && LineAt(a + b, |a|) == FirstLine(b);
    BlankConcat(LineAt(a, i), FirstLine(b));
  }

  /** The case of an unfinished last line, which the appended text completes. */
  lemma LastLineGrows(a: string, b: string, i: nat)
    requires i < |a| && LineEnd(a, i) == |a| && a[|a| - 1] != '\n'
    ensures Scan(a, i) + Scan(a + b, |a|) == Scan(a + b, i) <==> IsBlank(FirstLine(b))
  {
    if b == "" {
      assert a + b == a && Scan(a, |a|) == [];
    } else {
      LinesJoin(a, b, i);
      LoneLine(a, i);
      ScanStep(a + b, |a|);
      ScanStep(a + b, i);
      OneHeadOrTwo(IsBlank(LineAt(a, i)), IsBlank(FirstLine(b)), i, |a|, Scan(a + b, LineEnd(a + b, i)));
    }
  }

  lemma LoneLine(a: string, i: nat)
    requires i < |a| && LineEnd(a, i) == |a|
    ensures Scan(a, i) == Head(IsBlank(LineAt(a, i)), i)
  {
    ScanStep(a, i);
  }

  lemma OneHeadOrTwo(first: bool, second: bool, i: nat, j: nat, rest: seq<nat>)
    requires i < j
    ensures Head(first, i) + (Head(second, j) + rest) == Head(first && second, i) + rest <==> second
  {
    if !second {
      var left, right := Head(first, i) + (Head(second, j) + rest), Head(false, i) + rest;
      assert if first then left[0] != right[0] else |left| == |right| + 1;
    }
  }

  // ---- Files that grow piece by piece ----

  /** What is indexed when every piece is scanned as it is appended. */
  function Accumulated(pieces: seq<string>): seq<nat> {
    if pieces == [] then []
    else
      var before := pieces[..|pieces| - 1];
      ConcatLast(pieces);
      Accumulated(before) + Scan(Concat(pieces), |Concat(before)|)
  }

  lemma {:induction false} ConcatLast<T>(parts: seq<seq<T>>)
    requires parts != []
    ensures Concat(parts) == Concat(parts[..|parts| - 1]) + parts[|parts| - 1]
  {
    if |parts| > 1 {
      ConcatLast(parts[1..]);
      assert parts[1..][..|parts| - 2] == parts[..|parts| - 1][1..];
      assert parts[..|parts| - 1][0] == parts[0];
    }
  }

  /** The text before each piece ends with a whole line, or the piece starts with a blank one. */
  ghost predicate Joined(pieces: seq<string>) {
    forall k | 0 <= k < |pieces| :: AtBoundary(Concat(pieces[..k])) || IsBlank(FirstLine(pieces[k]))
  }

  lemma {:induction false} JoinedAgrees(pieces: seq<string>)
    requires Joined(pieces)
    ensures Accumulated(pieces) == Scan(Concat(pieces), 0)
  {
    if pieces != [] {
      var before, last := pieces[..|pieces| - 1], pieces[|pieces| - 1];
      forall k | 0 <= k < |before|
        ensures AtBoundary(Concat(before[..k])) || IsBlank(FirstLine(before[k]))
      {
        assert before[..k] == pieces[..k];
      }
      JoinedAgrees(before);
      ConcatLast(pieces);
      Appended(Concat(before), last);
    }
  }

  lemma Appended(before: string, more: string)
    requires AtBoundary(before) || IsBlank(FirstLine(more))
    ensures Scan(before, 0) + Scan(before + more, |before|) == Scan(before + more, 0)
  {
    IncrementalAgrees(before, more, 0);
  }

  predicate StartsLine(s: string, i: nat) {
    i <= |s| && (i == 0 || s[i - 1] == '\n')
  }

  lemma {:induction false} ScannedStartLines(s: string, i: nat)
    requires StartsLine(s, i)
    ensures forall o | o in Scan(s, i) :: StartsLine(s, o)
    decreases |s| - i
  {
    if i < |s| {
      var e := LineEnd(s, i);
      if e < |s| {
        ScannedStartLines(s, e);
      } else {
        assert Scan(s, e) == [];
      }
    }
  }

  /** A bad join is indexed as if it were the start of a line. */
  lemma BadJoinIsScanned(a: string, b: string)
    requires !IsBlank(FirstLine(b))
    ensures |a| in Scan(a + b, |a|)
  {
    LineEndShifts(a, b, 0);
    SliceAcross(a, b, |a|, LineEnd(b, 0));
    assert a[|a|..] == "" && LineAt(a + b, |a|) == FirstLine(b);
    ScanStep(a + b, |a|);
  }

  /** What was indexed once stays indexed, and the text before it stays as it is. */
  lemma {:induction false} AccumulatedGrows(pieces: seq<string>, k: nat)
    requires k <= |pieces|
    ensures forall o | o in Accumulated(pieces[..k]) :: o in Accumulated(pieces)
    ensures Concat(pieces[..k]) <= Concat(pieces)
  {
    if k < |pieces| {
      var before := pieces[..|pieces| - 1];
      AccumulatedGrows(before, k);
      assert before[..k] == pieces[..k];
      ConcatLast(pieces);
    } else {
      assert pieces[..k] == pieces;
    }
  }

  lemma BadJoinIsKept(pieces: seq<string>, k: nat)
    requires k < |pieces| && !IsBlank(FirstLine(pieces[k]))
    ensures |Concat(pieces[..k])| in Accumulated(pieces)
  {
    var before, longer := Concat(pieces[..k]), pieces[..k + 1];
    assert longer[..|longer| - 1] == pieces[..k] && longer[|longer| - 1] == pieces[k];
    ConcatLast(longer);
    BadJoinIsScanned(before, pieces[k]);
    assert Accumulated(longer) == Accumulated(pieces[..k]) + Scan(before + pieces[k], |before|);
    assert |before| in Accumulated(longer);
    AccumulatedGrows(pieces, k + 1);
  }

  lemma BadJoinDisagrees(pieces: seq<string>, k: nat)
    requires k < |pieces| && !AtBoundary(Concat(pieces[..k])) && !IsBlank(FirstLine(pieces[k]))
    ensures Accumulated(pieces) != Scan(Concat(pieces), 0)
  {
    var all, x := Concat(pieces), |Concat(pieces[..k])|;
    BadJoinIsKept(pieces, k);
    AccumulatedGrows(pieces, k);
    assert all[x - 1] == Concat(pieces[..k])[x - 1];
    ScannedStartLines(all, 0);
    assert !StartsLine(all, x);
  }

  /** Over any number of appends: the index agrees with a full scan iff every piece was joined at a whole line or
      starts with a blank one. A bad join is never mended. */
  lemma AccumulatedExactly(pieces: seq<string>)
    ensures Accumulated(pieces) == Scan(Concat(pieces), 0) <==> Joined(pieces)
  {
    if Joined(pieces) {
      JoinedAgrees(pieces);
    } else {
      var k :| 0 <= k < |pieces| && !(AtBoundary(Concat(pieces[..k])) || IsBlank(FirstLine(pieces[k])));
      BadJoinDisagrees(pieces, k);
    }
  }

  // ---- The cache ----

  datatype Entry = Entry(mtime: int, size: nat, offsets: seq<nat>)

  datatype File = File(mtime: int, content: string)

  /** The entry after one more look at the file: kept, extended by what lies beyond the old size, or rebuilt. */
  function Refreshed(cached: Option<Entry>, file: File): Entry {
    var size := |file.content|;
    if cached.Some? && cached.value.mtime == file.mtime && cached.value.size == size then cached.value
    else if cached.Some? && cached.value.size <= size then
      Entry(file.mtime, size, cached.value.offsets + Scan(file.content, cached.value.size))
    else Entry(file.mtime, size, Scan(file.content, 0))
  }

  /** The entry after looking at the file in each of these states. */
  function Indexed(files: seq<File>): Option<Entry> {
    if files == [] then None else Some(Refreshed(Indexed(files[..|files| - 1]), files[|files| - 1]))
  }

  lemma {:induction false} IndexedInside(files: seq<File>)
    requires files != []
    ensures var e, content := Indexed(files).value, files[|files| - 1].content;
            e.size == |content| && forall o | o in e.offsets :: o < |content|
  {
    var content := files[|files| - 1].content;
    OffsetsIncrease(content, 0);
    if |files| > 1 {
      var before := files[..|files| - 1];
      IndexedInside(before);
      var size := Indexed(before).value.size;
      if size <= |content| {
        OffsetsIncrease(content, size);
      }
    }
  }

  /** Between two looks text was appended, or the file became shorter. */
  ghost predicate Growing(files: seq<File>) {
    forall k {:trigger files[k]} | 0 < k < |files| :: Continues(files[..k], files[k].content)
  }

  ghost predicate Continues(before: seq<File>, content: string)
    requires before != []
  {
    var last := before[|before| - 1].content;
    |content| < |last| || last <= content
  }

  /** What was appended at each look since the file last became shorter. */
  function Pieces(files: seq<File>): seq<string> {
    if files == [] then []
    else
      var before, content := files[..|files| - 1], files[|files| - 1].content;
      var known := if before == [] then "" else before[|before| - 1].content;
      if |known| <= |content| then Pieces(before) + [content[|known|..]] else [content]
  }

  lemma {:induction false} IndexedByPieces(files: seq<File>)
    requires files != [] && Growing(files)
    ensures Concat(Pieces(files)) == files[|files| - 1].content
    ensures Indexed(files).value.offsets == Accumulated(Pieces(files))
    decreases |files|
  {
    var before, content := files[..|files| - 1], files[|files| - 1].content;
    if before == [] || |content| < |before[|before| - 1].content| {
      FirstLook(files);
    } else {
      assert forall k | 0 < k < |before| :: files[k] == before[k] && files[..k] == before[..k];
      assert Continues(files[..|files| - 1], files[|files| - 1].content);
      IndexedByPieces(before);
      NextLook(files);
    }
  }

  /** A look at a file that is new or was cut short. */
  lemma FirstLook(files: seq<File>)
    requires files != []
    requires |files| > 1 ==> |files[|files| - 1].content| < |files[|files| - 2].content|
    ensures Concat(Pieces(files)) == files[|files| - 1].content
    ensures Indexed(files).value.offsets == Accumulated(Pieces(files))
  {
    var before, content := files[..|files| - 1], files[|files| - 1].content;
    if before != [] {
      IndexedInside(before);
    } else {
      assert Pieces(before) == [] && content[0..] == content;
    }
    assert Pieces(files) == [content];
    FirstPiece(content);
  }

  /** A look at a file that text was appended to. */
  lemma NextLook(files: seq<File>)
    requires |files| > 1
    requires var before, content := files[..|files| - 1], files[|files| - 1].content;
             var known := before[|before| - 1].content;
             && known <= content && Concat(Pieces(before)) == known
             && Indexed(before).value.offsets == Accumulated(Pieces(before))
    ensures Concat(Pieces(files)) == files[|files| - 1].content
    ensures Indexed(files).value.offsets == Accumulated(Pieces(files))
  {
    var before, content := files[..|files| - 1], files[|files| - 1].content;
    var known := before[|before| - 1].content;
    var pieces := Pieces(before) + [content[|known|..]];
    assert Pieces(files) == pieces && pieces[..|pieces| - 1] == Pieces(before);
    ConcatLast(pieces);
    assert content == known + content[|known|..];
    IndexedInside(before);
    assert |known| == |content| ==> Scan(content, |known|) == [];
  }

  lemma FirstPiece(content: string)
    ensures Concat([content]) == content && Accumulated([content]) == Scan(content, 0)
  {
    ConcatLast([content]);
    assert [content][..0] == [];
  }

  /** A file that grows, or starts anew: the index is that of a full scan iff its pieces are well joined. */
  lemma IndexedExactly(files: seq<File>)
    requires files != [] && Growing(files)
    ensures Indexed(files).value.offsets == Scan(files[|files| - 1].content, 0) <==> Joined(Pieces(files))
  {
    IndexedByPieces(files);
    AccumulatedExactly(Pieces(files));
  }

  lemma LookedAgain(looks: seq<File>, file: File)
    ensures Indexed(looks + [file]) == Some(Refreshed(Indexed(looks), file))
    ensures Growing(looks + [file]) ==>
              (Indexed(looks + [file]).value.offsets == Scan(file.content, 0) <==> Joined(Pieces(looks + [file])))
  {
    assert (looks + [file])[..|looks|] == looks;
    if Growing(looks + [file]) {
      IndexedExactly(looks + [file]);
    }
  }

  /** Keeps the entry of an unchanged file, and otherwise scans from its old size on, or from the start. */
  method Refresh(cached: Option<Entry>, file: File) returns (entry: Entry)
    ensures entry == Refreshed(cached, file)
  {
    var start, offsets := 0, [];
    if cached.Some? && cached.value.mtime == file.mtime && cached.value.size == |file.content| {
      return cached.value;
    }
    if cached.Some? && cached.value.size <= |file.content| {
      start, offsets := cached.value.size, cached.value.offsets;
    }
    offsets := ScanFrom(file.content, start, offsets);
    entry := Entry(file.mtime, |file.content|, offsets);
  }

  class VizReplayServer {
    var indexCache: map<string, Entry>
    /** The states in which each file was looked at. */
    ghost var seen: map<string, seq<File>>

    ghost predicate Valid()
      reads this
    {
      && indexCache.Keys == seen.Keys
      && forall f | f in indexCache :: seen[f] != [] && Indexed(seen[f]) == Some(indexCache[f])
    }

    ghost function Looks(filename: string): seq<File>
      reads this
    {
      if filename in seen then seen[filename] else []
    }

    constructor ()
      ensures Valid() && seen == map[]
    {
      indexCache, seen := map[], map[];
    }

    /** The offsets that all looks at the file so far lead to, found by scanning only what is new. */
    method BuildLineIndex(filename: string, stat: Option<File>) returns (offsets: seq<nat>)
      requires Valid()
      modifies this
      ensures Valid()
      ensures stat.None? ==> offsets == [] && seen == old(seen)
      ensures stat.Some? ==>
                && seen == old(seen)[filename := old(Looks(filename)) + [stat.value]]
                && offsets == Indexed(Looks(filename)).value.offsets
                && (Growing(Looks(filename)) ==>
                      (offsets == Scan(stat.value.content, 0) <==> Joined(Pieces(Looks(filename)))))
    {
      if stat.None? {
        return [];
      }
      var file := stat.value;
      ghost var looks := Looks(filename) + [file];
      LookedAgain(Looks(filename), file);
      var cached := if filename in indexCache then Some(indexCache[filename]) else None;
      var entry := Refresh(cached, file);
      indexCache := indexCache[filename := entry];
      seen := seen[filename := looks];
      return entry.offsets;
    }

    /** One page of frames: the lines from `offset` on, at most `limit` of them, without those that do not parse. */
    method LoadFramesPaged<T>(filename: string, stat: Option<File>, offset: nat, limit: nat, parse: string -> Option<T>)
      returns (frames: seq<T>, total: nat)
      requires Valid()
      modifies this
      ensures Valid()
      ensures stat.None? ==> frames == [] && total == 0 && seen == old(seen)
      ensures stat.Some? ==>
                && seen == old(seen)[filename := old(Looks(filename)) + [stat.value]]
                && var lines := IndexedLines(Looks(filename));
                   && total == |lines| && frames == Page(lines, offset, limit, parse)
                   && (Growing(Looks(filename)) && Joined(Pieces(Looks(filename))) ==>
                         lines == NonBlank(Lines(stat.value.content, 0)))
    {
      var offsets := BuildLineIndex(filename, stat);
      if stat.None? {
        return [], 0;
      }
      ghost var looks := Looks(filename);
      if Growing(looks) && Joined(Pieces(looks)) {
        AllLinesIndexed(looks);
      }
      frames, total := ReadPage(stat.value.content, offsets, IndexedLines(looks), offset, limit, parse);
    }
  }

  lemma SameLines(content: string, offsets: seq<nat>, lines: seq<string>)
    requires offsets == Scan(content, 0) && LeadTo(content, offsets, lines)
    ensures lines == NonBlank(Lines(content, 0))
  {
    OffsetsPointAtLines(content, 0);
    var all := NonBlank(Lines(content, 0));
    assert |lines| == |all|;
    forall k | 0 <= k < |lines|
      ensures lines[k] == all[k]
    {
      assert offsets[k] < |content|;
    }
  }

  lemma AllLinesIndexed(files: seq<File>)
    requires files != [] && Growing(files) && Joined(Pieces(files))
    ensures IndexedLines(files) == NonBlank(Lines(files[|files| - 1].content, 0))
  {
    IndexedExactly(files);
    SameLines(files[|files| - 1].content, Indexed(files).value.offsets, IndexedLines(files));
  }

  /** The lines the index of a file leads to. */
  ghost function IndexedLines(files: seq<File>): (lines: seq<string>)
    requires files != []
    ensures |lines| == |Indexed(files).value.offsets|
    ensures LeadTo(files[|files| - 1].content, Indexed(files).value.offsets, lines)
  {
    var offsets, content := Indexed(files).value.offsets, files[|files| - 1].content;
    IndexedInside(files);
    assert forall k | 0 <= k < |offsets| :: offsets[k] in offsets;
    seq(|offsets|, k requires 0 <= k < |offsets| => LineAt(content, offsets[k]))
  }

  /** Offset k leads to line k. */
  ghost predicate LeadTo(content: string, offsets: seq<nat>, lines: seq<string>) {
    && |offsets| == |lines|
    && forall k {:trigger offsets[k]} | 0 <= k < |offsets| ::
         offsets[k] < |content| && LineAt(content, offsets[k]) == lines[k]
  }

  method ReadPage<T>(content: string, offsets: seq<nat>, ghost lines: seq<string>, offset: nat, limit: nat,
                     parse: string -> Option<T>)
    returns (frames: seq<T>, total: nat)
    requires LeadTo(content, offsets, lines)
    ensures total == |lines| && frames == Page(lines, offset, limit, parse)
  {
    total := |offsets|;
    if offset >= total {
      return [], total;
    }
    var end := if offset + limit < total then offset + limit else total;
    frames := ReadFrames(content, offsets, lines, offset, end, parse);
  }

  /** Seeks to each offset, reads the line there and parses it. */
  method ReadFrames<T>(content: string, offsets: seq<nat>, ghost lines: seq<string>, from: nat, end: nat,
                       parse: string -> Option<T>)
    returns (frames: seq<T>)
    requires LeadTo(content, offsets, lines) && from <= end <= |offsets|
    ensures frames == Parsed(lines[from..end], parse)
  {
    frames := [];
    for i := from to end
      invariant frames == Parsed(lines[from..i], parse)
    {
      assert lines[from..i + 1][..i - from] == lines[from..i];
      var line := Strip(LineAt(content, offsets[i]));
      if line != "" {
        var frame := parse(line);
        if frame.Some? {
          frames := frames + [frame.value];
        }
      }
    }
  }

  /** The scan loop, from a position on, added to what is known already. */
  method ScanFrom(content: string, start: nat, known: seq<nat>) returns (offsets: seq<nat>)
    requires start <= |content|
    ensures offsets == known + Scan(content, start)
  {
    offsets := known;
    var offset := start;
    while offset < |content|
      invariant offset <= |content|
      invariant offsets + Scan(content, offset) == known + Scan(content, start)
    {
      var end := LineEnd(content, offset);
      var line := content[offset..end];
      ghost var rest := Scan(content, end);
      if !IsBlank(line) {
        assert offsets + ([offset] + rest) == (offsets + [offset]) + rest;
        offsets := offsets + [offset];
      }
      offset := offset + |line|;
    }
  }

  // ---- Pages ----

  function Strip(s: string): string {
    if s == "" then ""
    else if IsSpace(s[0]) then Strip(s[1..])
    else if IsSpace(s[|s| - 1]) then Strip(s[..|s| - 1])
    else s
  }

  /** What is stripped at either end is blank, and what is left neither starts nor ends with a space. */
  lemma {:induction false} StripTrims(s: string) returns (i: nat, j: nat)
    ensures i <= j <= |s| && Strip(s) == s[i..j]
    ensures forall k | 0 <= k < i || j <= k < |s| :: IsSpace(s[k])
    ensures i < j ==> !IsSpace(s[i]) && !IsSpace(s[j - 1])
  {
    if s != "" && IsSpace(s[0]) {
      i, j := StripTrims(s[1..]);
      assert s[1..][i..j] == s[i + 1..j + 1];
      assert forall k | 0 < k < |s| :: s[k] == s[1..][k - 1];
      i, j := i + 1, j + 1;
    } else if s != "" && IsSpace(s[|s| - 1]) {
      i, j := StripTrims(s[..|s| - 1]);
      assert s[..|s| - 1][i..j] == s[i..j];
      assert forall k | 0 <= k < |s| - 1 :: s[k] == s[..|s| - 1][k];
    } else {
      i, j := 0, |s|;
    }
  }

  lemma {:induction false} StripIsEmpty(s: string)
    ensures Strip(s) == "" <==> IsBlank(s)
  {
    if s != "" {
      if IsSpace(s[0]) {
        StripIsEmpty(s[1..]);
        BlankConcat(s[..1], s[1..]);
        assert s[..1] + s[1..] == s;
      } else if IsSpace(s[|s| - 1]) {
        StripIsEmpty(s[..|s| - 1]);
        assert s[..|s| - 1][0] == s[0];
      }
    }
  }

  /** No non-blank line is skipped as empty when a page is read. */
  lemma {:induction false} NothingIsSkipped(lines: seq<string>, k: nat)
    requires k < |NonBlank(lines)|
    ensures Strip(NonBlank(lines)[k]) != ""
  {
    StripIsEmpty(lines[0]);
    if !IsBlank(lines[0]) {
      if k > 0 {
        NothingIsSkipped(lines[1..], k - 1);
      }
    } else {
      NothingIsSkipped(lines[1..], k);
    }
  }

  function Parsed<T>(lines: seq<string>, parse: string -> Option<T>): seq<T> {
    if lines == [] then []
    else
      var text := Strip(lines[|lines| - 1]);
      var frame := if text == "" then None else parse(text);
      Parsed(lines[..|lines| - 1], parse) + if frame.Some? then [frame.value] else []
  }

  function Page<T>(lines: seq<string>, offset: nat, limit: nat, parse: string -> Option<T>): seq<T> {
    if offset >= |lines| then []
    else Parsed(lines[offset..if offset + limit < |lines| then offset + limit else |lines|], parse)
  }

  /** When every line parses, frame k is what line k parses to. */
  lemma {:induction false} EveryLineGivesItsFrame<T>(lines: seq<string>, parse: string -> Option<T>)
    requires forall line | line in lines :: Strip(line) != "" && parse(Strip(line)).Some?
    ensures |Parsed(lines, parse)| == |lines|
    ensures forall k | 0 <= k < |lines| :: parse(Strip(lines[k])) == Some(Parsed(lines, parse)[k])
  {
    if lines != [] {
      EveryLineGivesItsFrame(lines[..|lines| - 1], parse);
    }
  }

  /** A line that does not parse is left out, and the others stay in order. */
  lemma UnparsedIsSkipped<T>(before: seq<string>, line: string, after: seq<string>, parse: string -> Option<T>)
    requires Strip(line) != "" && parse(Strip(line)).None?
    ensures Parsed(before + [line] + after, parse) == Parsed(before + after, parse)
  {
    ParsedConcat(before + [line], after, parse);
    ParsedConcat(before, [line], parse);
    ParsedConcat(before, after, parse);
  }

  /** All pages of one limit from an offset on. */
  function Pages<T>(lines: seq<string>, offset: nat, limit: nat, parse: string -> Option<T>): seq<T>
    requires limit > 0
    decreases |lines| - offset
  {
    if offset >= |lines| then []
    else Page(lines, offset, limit, parse) + Pages(lines, offset + limit, limit, parse)
  }

  lemma {:induction false} ParsedConcat<T>(a: seq<string>, b: seq<string>, parse: string -> Option<T>)
    ensures Parsed(a + b, parse) == Parsed(a, parse) + Parsed(b, parse)
  {
    if b == [] {
      assert a + b == a;
    } else {
      ParsedConcat(a, b[..|b| - 1], parse);
      assert (a + b)[..|a + b| - 1] == a + b[..|b| - 1];
    }
  }

  lemma PageThenRest<T>(lines: seq<string>, offset: nat, limit: nat, parse: string -> Option<T>)
    requires offset <= |lines|
    ensures var next := if offset + limit < |lines| then offset + limit else |lines|;
            Page(lines, offset, limit, parse) + Parsed(lines[next..], parse) == Parsed(lines[offset..], parse)
  {
    var next := if offset + limit < |lines| then offset + limit else |lines|;
    ParsedConcat(lines[offset..next], lines[next..], parse);
    assert lines[offset..] == lines[offset..next] + lines[next..];
    assert offset == |lines| ==> lines[offset..next] == [];
  }

  lemma FirstPage<T>(lines: seq<string>, offset: nat, limit: nat, parse: string -> Option<T>)
    requires limit > 0 && offset + limit < |lines|
    requires Pages(lines, offset + limit, limit, parse) == Parsed(lines[offset + limit..], parse)
    ensures Pages(lines, offset, limit, parse) == Parsed(lines[offset..], parse)
  {
    PageThenRest(lines, offset, limit, parse);
    var page, rest := Page(lines, offset, limit, parse), Parsed(lines[offset + limit..], parse);
    assert Pages(lines, offset, limit, parse) == page + rest;
  }

  lemma LastPage<T>(lines: seq<string>, offset: nat, limit: nat, parse: string -> Option<T>)
    requires limit > 0 && offset <= |lines| <= offset + limit
    ensures Pages(lines, offset, limit, parse) == Parsed(lines[offset..], parse)
  {
    assert lines[offset..|lines|] == lines[offset..];
    if offset < |lines| {
      assert Pages(lines, offset + limit, limit, parse) == [];
    }
  }

  /** Reading page after page gives every non-blank line once and in order, whatever the limit. */
  lemma {:induction false} PagesGiveEverything<T>(lines: seq<string>, offset: nat, limit: nat,
                                                  parse: string -> Option<T>)
    requires limit > 0 && offset <= |lines|
    ensures Pages(lines, offset, limit, parse) == Parsed(lines[offset..], parse)
    decreases |lines| - offset
  {
    if offset + limit < |lines| {
      PagesGiveEverything(lines, offset + limit, limit, parse);
      FirstPage(lines, offset, limit, parse);
    } else {
      LastPage(lines, offset, limit, parse);
    }
  }
}
