/** What is read of a whole file, line by line: a line that does not fit the buffer is read in pieces, and a blank read
    ends the reading. */
module RecordFiles {
  import opened Bytes
  import opened Lines

  function Take<T>(s: seq<T>, n: nat): seq<T> {
    if |s| <= n then s else s[..n]
  }

  lemma TakeMore<T>(x: T, s: seq<T>, n: nat)
    requires n > 0
    ensures [x] + Take(s, n - 1) == Take([x] + s, n)
  {
  }

  lemma AppendAssociates<T>(a: seq<T>, b: seq<T>, c: seq<T>)
    ensures a + (b + c) == a + b + c
  {
  }

  function Parse1<T>(parse: Bytes -> Option<T>, line: Bytes): seq<T> {
    match parse(line)
    case Some(record) => [record]
    case None => []
  }

  /** All records on these lines, in order. */
  function Parsed<T>(parse: Bytes -> Option<T>, lines: seq<Bytes>): seq<T> {
    if lines == [] then [] else Parse1(parse, lines[0]) + Parsed(parse, lines[1..])
  }

  lemma {:induction false} ParsedAppend<T>(parse: Bytes -> Option<T>, a: seq<Bytes>, b: seq<Bytes>)
    ensures Parsed(parse, a + b) == Parsed(parse, a) + Parsed(parse, b)
  {
    if a == [] {
      assert a + b == b;
    } else {
      ParsedAppend(parse, a[1..], b);
      assert (a + b)[0] == a[0] && (a + b)[1..] == a[1..] + b;
      var first, more, last := Parse1(parse, a[0]), Parsed(parse, a[1..]), Parsed(parse, b);
      assert Parsed(parse, a + b) == first + (more + last);
      AppendAssociates(first, more, last);
    }
  }

  lemma {:induction false} NothingParsed<T>(parse: Bytes -> Option<T>, lines: seq<Bytes>)
    ensures Parsed(parse, lines) == [] <==> forall i :: 0 <= i < |lines| ==> parse(lines[i]).None?
  {
    if lines != [] {
      NothingParsed(parse, lines[1..]);
      forall i | 0 < i < |lines| ensures lines[i] == lines[1..][i - 1] {
      }
    }
  }

  lemma {:induction false} AllParse<T>(parse: Bytes -> Option<T>, lines: seq<Bytes>, records: seq<T>)
    requires |lines| == |records|
    requires forall i :: 0 <= i < |lines| ==> parse(lines[i]) == Some(records[i])
    ensures Parsed(parse, lines) == records
  {
    if lines != [] {
      AllParse(parse, lines[1..], records[1..]);
      assert Parse1(parse, lines[0]) == [records[0]];
    }
  }

  // ---------- lines and pieces ----------

  predicate OneLineEach(lines: seq<Bytes>) {
    forall i :: 0 <= i < |lines| ==> '\n' !in lines[i]
  }

  /** How a line is read through a buffer of `limit` bytes: whole if it is shorter, else `limit` bytes at a time. The
      last piece is blank if the length is a multiple of the limit, because the newline is then read by itself. */
  function Pieces(line: Bytes, limit: nat): (ps: seq<Bytes>)
    requires limit > 0
    ensures ps != []
  {
    if |line| < limit then [line] else [line[..limit]] + Pieces(line[limit..], limit)
  }

  predicate IsMultiple(n: nat, limit: nat)
    requires limit > 0
  {
    n == 0 || (n >= limit && IsMultiple(n - limit, limit))
  }

  /** A line has a blank piece exactly if its length is a multiple of the limit: zero, for instance. */
  lemma {:induction false} BlankPieceIff(line: Bytes, limit: nat)
    requires limit > 0
    ensures [] in Pieces(line, limit) <==> IsMultiple(|line|, limit)
  {
    if |line| >= limit { BlankPieceIff(line[limit..], limit); }
  }

  function AllPieces(lines: seq<Bytes>, limit: nat): seq<Bytes>
    requires limit > 0
  {
    if lines == [] then [] else Pieces(lines[0], limit) + AllPieces(lines[1..], limit)
  }

  lemma {:induction false} PiecesAppend(a: seq<Bytes>, b: seq<Bytes>, limit: nat)
    requires limit > 0
    ensures AllPieces(a + b, limit) == AllPieces(a, limit) + AllPieces(b, limit)
  {
    if a == [] {
      assert a + b == b;
    } else {
      PiecesAppend(a[1..], b, limit);
      assert (a + b)[0] == a[0] && (a + b)[1..] == a[1..] + b;
      var first, more, last := Pieces(a[0], limit), AllPieces(a[1..], limit), AllPieces(b, limit);
      assert AllPieces(a + b, limit) == first + (more + last);
      AppendAssociates(first, more, last);
    }
  }

  /** Lines that fit the buffer are their own pieces. */
  lemma {:induction false} FittingPieces(lines: seq<Bytes>, limit: nat)
    requires limit > 0 && forall i :: 0 <= i < |lines| ==> |lines[i]| < limit
    ensures AllPieces(lines, limit) == lines
  {
    if lines != [] { FittingPieces(lines[1..], limit); }
  }

  function BeforeBlank(pieces: seq<Bytes>): seq<Bytes> {
    if pieces == [] || pieces[0] == [] then [] else [pieces[0]] + BeforeBlank(pieces[1..])
  }

  lemma {:induction false} NoBlank(pieces: seq<Bytes>)
    requires [] !in pieces
    ensures BeforeBlank(pieces) == pieces
  {
    if pieces != [] { NoBlank(pieces[1..]); }
  }

  lemma {:induction false} BlankStays(a: seq<Bytes>, b: seq<Bytes>)
    requires [] in a
    ensures BeforeBlank(a + b) == BeforeBlank(a)
  {
    if a[0] != [] {
      BlankStays(a[1..], b);
      assert (a + b)[1..] == a[1..] + b;
    }
  }

  // ---------- what is read of any file ----------

  /** One read, in front of a file that reads as the first records of `rest`. */
  lemma ReadsOne<T>(parse: Bytes -> Option<T>, f: Bytes, rest: seq<T>, limit: nat, max: nat)
    requires LineLength(f, limit) > 0 && max > 0
    requires forall n: nat :: n <= max ==> Records(parse, Rest(f, limit), limit, n) == Take(rest, n)
    ensures Records(parse, f, limit, max) == Take(Parse1(parse, Line(f, limit)) + rest, max)
  {
    RecordsStep(parse, f, limit, max);
    match parse(Line(f, limit))
    case Some(record) => TakeMore(record, rest, max);
    case None => assert [] + rest == rest;
  }

  lemma {:induction false} NoNewlineLength(l: Bytes, g: Bytes, limit: nat)
    requires '\n' !in l && |l| >= limit
    ensures LineLength(l + g, limit) == limit
  {
    if limit > 0 {
      assert (l + g)[1..] == l[1..] + g;
      NoNewlineLength(l[1..], g, limit - 1);
    }
  }

  /** A line that does not fit: the buffer is filled and the rest of the line is still there. */
  lemma LongRead(l: Bytes, g: Bytes, limit: nat)
    requires '\n' !in l && |l| >= limit
    ensures LineLength(l + g, limit) == limit && Line(l + g, limit) == l[..limit]
    ensures Rest(l + g, limit) == l[limit..] + g
  {
    NoNewlineLength(l, g, limit);
    assert (l + g)[limit..] == l[limit..] + g;
  }

  /** The first piece of a file of lines, and the lines that are left after it. */
  lemma FirstPiece(lines: seq<Bytes>, limit: nat) returns (left: seq<Bytes>)
    requires limit > 0 && OneLineEach(lines) && lines != [] && lines[0] != []
    ensures OneLineEach(left) && |Joined(left)| < |Joined(lines)|
    ensures LineLength(Joined(lines), limit) > 0 && Rest(Joined(lines), limit) == Joined(left)
    ensures AllPieces(lines, limit) == [Line(Joined(lines), limit)] + AllPieces(left, limit)
  {
    var l, more := lines[0], lines[1..];
    if |l| < limit {
      left := more;
      ReadBack(l, Joined(more), limit);
    } else {
      left := [l[limit..]] + more;
      assert left[1..] == more;
      assert Joined(lines) == l + (['\n'] + Joined(more));
      LongRead(l, ['\n'] + Joined(more), limit);
      assert Joined(left) == l[limit..] + (['\n'] + Joined(more));
      assert AllPieces(lines, limit) == [l[..limit]] + (Pieces(l[limit..], limit) + AllPieces(more, limit));
    }
  }

  /** Of a file of lines of any length, the first `max` records on the pieces before the first blank one are read, and
      no other. */
  lemma {:induction false} ReadsPieces<T>(parse: Bytes -> Option<T>, lines: seq<Bytes>, limit: nat, max: nat)
    requires limit > 0 && OneLineEach(lines)
    ensures Records(parse, Joined(lines), limit, max) == Take(Parsed(parse, BeforeBlank(AllPieces(lines, limit))), max)
    decreases |Joined(lines)|
  {
    if lines == [] || max == 0 {
      assert Take(Parsed(parse, BeforeBlank(AllPieces(lines, limit))), 0) == [];
    } else if lines[0] == [] {
      assert Joined(lines)[0] == '\n';
      assert BeforeBlank(AllPieces(lines, limit)) == [];
    } else {
      var left := FirstPiece(lines, limit);
      var rest := Parsed(parse, BeforeBlank(AllPieces(left, limit)));
      forall n: nat | n <= max ensures Records(parse, Joined(left), limit, n) == Take(rest, n) {
        ReadsPieces(parse, left, limit, n);
      }
      ReadsOne(parse, Joined(lines), rest, limit, max);
      ParsedFirst(parse, Line(Joined(lines), limit), AllPieces(left, limit));
    }
  }

  lemma ParsedFirst<T>(parse: Bytes -> Option<T>, piece: Bytes, pieces: seq<Bytes>)
    requires piece != []
    ensures Parsed(parse, BeforeBlank([piece] + pieces)) == Parse1(parse, piece) + Parsed(parse, BeforeBlank(pieces))
  {
    assert ([piece] + pieces)[1..] == pieces;
    assert ([piece] + BeforeBlank(pieces))[1..] == BeforeBlank(pieces);
  }

  /** The lines of a file; the last one need not be ended by a newline. */
  function LinesOf(f: Bytes): (lines: seq<Bytes>)
    ensures lines != [] && OneLineEach(lines)
  {
    if f == [] then [[]]
    else
      var rest := LinesOf(f[1..]);
      if f[0] == '\n' then [[]] + rest else [[f[0]] + rest[0]] + rest[1..]
  }

  lemma {:induction false} LinesOfJoined(f: Bytes)
    ensures Joined(LinesOf(f)) == f + ['\n']
  {
    if f == [] {
      assert Joined([[]]) == ['\n'] + Joined([]);
    } else {
      LinesOfJoined(f[1..]);
      FirstByteJoined(f[0], LinesOf(f[1..]));
      assert [f[0]] + (f[1..] + ['\n']) == f + ['\n'];
    }
  }

  lemma FirstByteJoined(c: Byte, rest: seq<Bytes>)
    requires rest != []
    ensures Joined([[]] + rest) == ['\n'] + Joined(rest)
    ensures Joined([[c] + rest[0]] + rest[1..]) == [c] + Joined(rest)
  {
    assert ([[]] + rest)[1..] == rest;
    assert [] + ['\n'] == ['\n'];
    var l, more := [c] + rest[0], rest[1..];
    assert ([l] + more)[1..] == more;
    AppendAssociates([c], rest[0], ['\n']);
    AppendAssociates([c], rest[0] + ['\n'], Joined(more));
  }

  /** A newline at the end of the file makes no difference. */
  lemma {:induction false} LastNewline<T>(parse: Bytes -> Option<T>, f: Bytes, limit: nat, max: nat)
    requires limit > 0
    ensures Records(parse, f + ['\n'], limit, max) == Records(parse, f, limit, max)
    decreases |f|
  {
    if max > 0 && LineLength(f, limit) > 0 {
      LastRead(f, limit);
      RecordsStep(parse, f, limit, max);
      RecordsStep(parse, f + ['\n'], limit, max);
      var n := if parse(Line(f, limit)).Some? then max - 1 else max;
      LastNewline(parse, Rest(f, limit), limit, n);
      assert Records(parse, ['\n'], limit, n) == Records(parse, [], limit, n) == [];
    } else if max > 0 {
      assert f == [] || f[0] == '\n';
    }
  }

  lemma {:induction false} LastLength(f: Bytes, limit: nat)
    ensures LineLength(f + ['\n'], limit) == LineLength(f, limit)
  {
    if limit > 0 && f != [] && f[0] != '\n' {
      assert (f + ['\n'])[1..] == f[1..] + ['\n'];
      LastLength(f[1..], limit - 1);
    }
  }

  lemma LastRead(f: Bytes, limit: nat)
    ensures LineLength(f + ['\n'], limit) == LineLength(f, limit) && Line(f + ['\n'], limit) == Line(f, limit)
    ensures Rest(f + ['\n'], limit) == Rest(f, limit) + ['\n']
            || (Rest(f, limit) == [] && Rest(f + ['\n'], limit) == [])
  {
    LastLength(f, limit);
    var n := LineLength(f, limit);
    assert (f + ['\n'])[..n] == f[..n];
    assert (f + ['\n'])[n..] == f[n..] + ['\n'];
    if n < |f| { assert (f + ['\n'])[n + 1..] == f[n + 1..] + ['\n']; }
  }

  /** The same for every file there is. */
  lemma ReadsAnyFile<T>(parse: Bytes -> Option<T>, f: Bytes, limit: nat, max: nat)
    requires limit > 0
    ensures Records(parse, f, limit, max) == Take(Parsed(parse, BeforeBlank(AllPieces(LinesOf(f), limit))), max)
  {
    LastNewline(parse, f, limit, max);
    LinesOfJoined(f);
    ReadsPieces(parse, LinesOf(f), limit, max);
  }

  /** Lines that fit the buffer, are not blank and all parse read back as the first `max` records. */
  lemma ReadJoined<T>(parse: Bytes -> Option<T>, lines: seq<Bytes>, records: seq<T>, limit: nat, max: nat)
    requires |lines| == |records| && limit > 0 && OneLineEach(lines)
    requires forall i :: 0 <= i < |lines| ==> 0 < |lines[i]| < limit && parse(lines[i]) == Some(records[i])
    ensures Records(parse, Joined(lines), limit, max) == Take(records, max)
  {
    FittingPieces(lines, limit);
    NoBlank(lines);
    AllParse(parse, lines, records);
    ReadsPieces(parse, lines, limit, max);
  }
}
