/** When a reader that means to skip malformed lines, blank or too long for its buffer or without a record, reads
    exactly the records of the other lines. */
module SkippedLines {
  import opened Bytes
  import opened Lines
  import opened RecordFiles

  /** The lines that fit the buffer. */
  function Fitting(lines: seq<Bytes>, limit: nat): seq<Bytes> {
    if lines == [] then []
    else (if |lines[0]| < limit then [lines[0]] else []) + Fitting(lines[1..], limit)
  }

  lemma {:induction false} FittingAppend(a: seq<Bytes>, b: seq<Bytes>, limit: nat)
    ensures Fitting(a + b, limit) == Fitting(a, limit) + Fitting(b, limit)
  {
    if a == [] {
      assert a + b == b;
    } else {
      FittingAppend(a[1..], b, limit);
      assert (a + b)[0] == a[0] && (a + b)[1..] == a[1..] + b;
      var first, more, last := if |a[0]| < limit then [a[0]] else [], Fitting(a[1..], limit), Fitting(b, limit);
      assert Fitting(a + b, limit) == first + (more + last);
      AppendAssociates(first, more, last);
    }
  }

  /** What should be read: the records of the lines that fit. */
  function Wanted<T>(parse: Bytes -> Option<T>, lines: seq<Bytes>, limit: nat): seq<T> {
    Parsed(parse, Fitting(lines, limit))
  }

  ghost predicate ReadsWanted<T(!new)>(parse: Bytes -> Option<T>, lines: seq<Bytes>, limit: nat) {
    forall max: nat :: Records(parse, Joined(lines), limit, max) == Take(Wanted(parse, lines, limit), max)
  }

  // ---------- how far the reading goes ----------

  /** The reading ends with this line: it is blank, or its length is a multiple of the limit. */
  predicate Stops(line: Bytes, limit: nat)
    requires limit > 0
  {
    [] in Pieces(line, limit)
  }

  /** The lines up to the first that ends the reading, that one included. */
  function ReadLines(lines: seq<Bytes>, limit: nat): seq<Bytes>
    requires limit > 0
  {
    if lines == [] then []
    else if Stops(lines[0], limit) then [lines[0]]
    else [lines[0]] + ReadLines(lines[1..], limit)
  }

  function Unread(lines: seq<Bytes>, limit: nat): seq<Bytes>
    requires limit > 0
  {
    if lines == [] then []
    else if Stops(lines[0], limit) then lines[1..]
    else Unread(lines[1..], limit)
  }

  lemma {:induction false} ReadAndUnread(lines: seq<Bytes>, limit: nat)
    requires limit > 0
    ensures ReadLines(lines, limit) + Unread(lines, limit) == lines
  {
    if lines != [] && !Stops(lines[0], limit) { ReadAndUnread(lines[1..], limit); }
  }

  /** A blank piece is the last one of its line. */
  lemma {:induction false} BlankIsLast(line: Bytes, limit: nat, more: seq<Bytes>)
    requires limit > 0 && Stops(line, limit)
    ensures BeforeBlank(Pieces(line, limit) + more) + [[]] == Pieces(line, limit)
  {
    var ps := Pieces(line, limit);
    if |line| >= limit {
      BlankIsLast(line[limit..], limit, more);
      assert (ps + more)[1..] == Pieces(line[limit..], limit) + more;
    }
  }

  lemma {:induction false} NoBlankBefore(a: seq<Bytes>, b: seq<Bytes>)
    requires [] !in a
    ensures BeforeBlank(a + b) == a + BeforeBlank(b)
  {
    if a == [] {
      assert a + b == b;
    } else {
      NoBlankBefore(a[1..], b);
      assert (a + b)[0] == a[0] && (a + b)[1..] == a[1..] + b;
    }
  }

  /** What is read are the records on all pieces of the lines up to the first that ends the reading. */
  lemma {:induction false} ReadFromLines<T>(parse: Bytes -> Option<T>, lines: seq<Bytes>, limit: nat)
    requires limit > 0 && parse([]).None?
    ensures Parsed(parse, BeforeBlank(AllPieces(lines, limit)))
            == Parsed(parse, AllPieces(ReadLines(lines, limit), limit))
  {
    if lines != [] {
      var ps, more := Pieces(lines[0], limit), AllPieces(lines[1..], limit);
      if Stops(lines[0], limit) {
        BlankIsLast(lines[0], limit, more);
        ParsedAppend(parse, BeforeBlank(ps + more), [[]]);
        assert Parsed(parse, [[]]) == Parse1(parse, []) + Parsed(parse, []) == [];
        assert AllPieces([lines[0]], limit) == ps + AllPieces([], limit) == ps;
      } else {
        ReadFromLines(parse, lines[1..], limit);
        NoBlankBefore(ps, more);
        ParsedAppend(parse, ps, BeforeBlank(more));
        var rest := ReadLines(lines[1..], limit);
        assert ([lines[0]] + rest)[1..] == rest;
        ParsedAppend(parse, ps, AllPieces(rest, limit));
      }
    }
  }

  // ---------- fragments ----------

  /** Records that too long lines leave in their pieces. */
  function Fragments<T>(parse: Bytes -> Option<T>, lines: seq<Bytes>, limit: nat): seq<T>
    requires limit > 0
  {
    if lines == [] then []
    else
      (if |lines[0]| < limit then [] else Parsed(parse, Pieces(lines[0], limit)))
      + Fragments(parse, lines[1..], limit)
  }

  /** No piece of a line that does not fit parses. */
  ghost predicate NoFragment<T>(parse: Bytes -> Option<T>, lines: seq<Bytes>, limit: nat)
    requires limit > 0
  {
    forall i, j :: 0 <= i < |lines| && |lines[i]| >= limit && 0 <= j < |Pieces(lines[i], limit)| ==>
      parse(Pieces(lines[i], limit)[j]).None?
  }

  lemma {:induction false} FragmentsNone<T>(parse: Bytes -> Option<T>, lines: seq<Bytes>, limit: nat)
    requires limit > 0
    ensures Fragments(parse, lines, limit) == [] <==> NoFragment(parse, lines, limit)
  {
    if lines != [] {
      var l, more := lines[0], lines[1..];
      FragmentsNone(parse, more, limit);
      NothingParsed(parse, Pieces(l, limit));
      if NoFragment(parse, lines, limit) {
        forall i, j | 0 <= i < |more| && |more[i]| >= limit && 0 <= j < |Pieces(more[i], limit)|
          ensures parse(Pieces(more[i], limit)[j]).None?
        {
          assert lines[i + 1] == more[i];
        }
        assert |l| >= limit ==> forall j :: 0 <= j < |Pieces(l, limit)| ==> parse(Pieces(lines[0], limit)[j]).None?;
      } else {
        var i, j :| 0 <= i < |lines| && |lines[i]| >= limit && 0 <= j < |Pieces(lines[i], limit)|
                    && parse(Pieces(lines[i], limit)[j]).Some?;
        if i > 0 { assert more[i - 1] == lines[i]; }
      }
    }
  }

  /** All pieces hold the wanted records and the fragments, and no others. */
  lemma {:induction false} WantedAndFragments<T>(parse: Bytes -> Option<T>, lines: seq<Bytes>, limit: nat)
    requires limit > 0
    ensures |Parsed(parse, AllPieces(lines, limit))|
            == |Wanted(parse, lines, limit)| + |Fragments(parse, lines, limit)|
    ensures Fragments(parse, lines, limit) == [] ==>
              Parsed(parse, AllPieces(lines, limit)) == Wanted(parse, lines, limit)
  {
    if lines != [] {
      var l, more := lines[0], lines[1..];
      WantedAndFragments(parse, more, limit);
      ParsedAppend(parse, Pieces(l, limit), AllPieces(more, limit));
      ParsedAppend(parse, if |l| < limit then [l] else [], Fitting(more, limit));
    }
  }

  // ---------- one file ----------

  /** No line after the one that ends the reading holds a record. */
  ghost predicate NothingUnread<T>(parse: Bytes -> Option<T>, lines: seq<Bytes>, limit: nat)
    requires limit > 0
  {
    forall l :: l in Unread(lines, limit) && |l| < limit ==> parse(l).None?
  }

  lemma {:induction false} WantedNone<T>(parse: Bytes -> Option<T>, lines: seq<Bytes>, limit: nat)
    ensures Wanted(parse, lines, limit) == [] <==> forall l :: l in lines && |l| < limit ==> parse(l).None?
  {
    if lines != [] {
      WantedNone(parse, lines[1..], limit);
      ParsedAppend(parse, if |lines[0]| < limit then [lines[0]] else [], Fitting(lines[1..], limit));
      assert lines == [lines[0]] + lines[1..];
      assert Parsed(parse, [lines[0]]) == Parse1(parse, lines[0]) + Parsed(parse, []);
    }
  }

  lemma SameTakes<T>(a: seq<T>, b: seq<T>)
    ensures (forall max: nat :: Take(a, max) == Take(b, max)) <==> a == b
  {
    if a != b {
      var n := |a| + |b|;
      assert Take(a, n) != Take(b, n);
    }
  }

  /** What the file reads as is what is wanted of it, exactly if the two lists of records are the same. */
  lemma ReadsWantedIs<T(!new)>(parse: Bytes -> Option<T>, lines: seq<Bytes>, limit: nat)
    requires limit > 0 && OneLineEach(lines) && parse([]).None?
    ensures ReadsWanted(parse, lines, limit) <==>
            Parsed(parse, AllPieces(ReadLines(lines, limit), limit)) == Wanted(parse, lines, limit)
  {
    ReadFromLines(parse, lines, limit);
    var read := Parsed(parse, AllPieces(ReadLines(lines, limit), limit));
    forall max: nat ensures Records(parse, Joined(lines), limit, max) == Take(read, max) {
      ReadsPieces(parse, lines, limit, max);
    }
    SameTakes(read, Wanted(parse, lines, limit));
    if ReadsWanted(parse, lines, limit) {
      forall max: nat ensures Take(read, max) == Take(Wanted(parse, lines, limit), max) {
        assert Records(parse, Joined(lines), limit, max) == Take(Wanted(parse, lines, limit), max);
      }
    }
  }

  /** Malformed lines are skipped, so that for every `max` the first `max` wanted records are read:
      - if the lines that are read leave no fragments, exactly when no record comes after the line that ends the
        reading;
      - if no record comes after it, exactly when the lines that are read leave no fragments.
      Only when both fail can a fragment by chance stand where a lost record should. */
  lemma SkipsMalformedIff<T(!new)>(parse: Bytes -> Option<T>, lines: seq<Bytes>, limit: nat)
    requires limit > 0 && OneLineEach(lines) && parse([]).None?
    ensures NoFragment(parse, ReadLines(lines, limit), limit) ==>
              (ReadsWanted(parse, lines, limit) <==> NothingUnread(parse, lines, limit))
    ensures NothingUnread(parse, lines, limit) ==>
              (ReadsWanted(parse, lines, limit) <==> NoFragment(parse, ReadLines(lines, limit), limit))
  {
    var r, u := ReadLines(lines, limit), Unread(lines, limit);
    ReadsWantedIs(parse, lines, limit);
    ReadAndUnread(lines, limit);
    FittingAppend(r, u, limit);
    ParsedAppend(parse, Fitting(r, limit), Fitting(u, limit));
    WantedAndFragments(parse, r, limit);
    FragmentsNone(parse, r, limit);
    WantedNone(parse, u, limit);
  }

  // ---------- a file that grows ----------

  /** Lines as the program appends them: not blank, and short enough for the buffer. */
  predicate Ordinary(lines: seq<Bytes>, limit: nat) {
    forall i :: 0 <= i < |lines| ==> 0 < |lines[i]| < limit && '\n' !in lines[i]
  }

  /** Whatever ordinary lines are appended, what is wanted is read. */
  ghost predicate ReadsWantedForEver<T(!new)>(parse: Bytes -> Option<T>, lines: seq<Bytes>, limit: nat) {
    forall more :: Ordinary(more, limit) ==> ReadsWanted(parse, lines + more, limit)
  }

  ghost predicate NeverStops(lines: seq<Bytes>, limit: nat)
    requires limit > 0
  {
    forall i :: 0 <= i < |lines| ==> !Stops(lines[i], limit)
  }

  lemma StopsFirstOrLater(lines: seq<Bytes>, limit: nat)
    requires limit > 0 && lines != []
    ensures NeverStops(lines, limit) <==> !Stops(lines[0], limit) && NeverStops(lines[1..], limit)
  {
    forall i | 0 < i < |lines| ensures lines[i] == lines[1..][i - 1] {
    }
    if NeverStops(lines, limit) {
      forall i | 0 <= i < |lines[1..]| ensures !Stops(lines[1..][i], limit) {
        assert lines[1..][i] == lines[i + 1];
      }
    }
  }

  lemma {:induction false} AllRead(lines: seq<Bytes>, more: seq<Bytes>, limit: nat)
    requires limit > 0
    ensures NeverStops(lines, limit) ==> ReadLines(lines + more, limit) == lines + ReadLines(more, limit)
    ensures !NeverStops(lines, limit) ==> ReadLines(lines + more, limit) == ReadLines(lines, limit)
  {
    if lines == [] {
      assert lines + more == more;
    } else {
      AllRead(lines[1..], more, limit);
      assert (lines + more)[0] == lines[0] && (lines + more)[1..] == lines[1..] + more;
      StopsFirstOrLater(lines, limit);
    }
  }

  lemma OrdinaryNeverStops(lines: seq<Bytes>, limit: nat)
    requires limit > 0 && Ordinary(lines, limit)
    ensures NeverStops(lines, limit) && ReadLines(lines, limit) == lines
  {
    AllRead(lines, [], limit);
    assert lines + [] == lines;
  }

  /** From now on every record is read right, whatever is appended, if and only if no line is blank or has a length
      that is a multiple of the limit, and no piece of a line that does not fit parses. `good` is any line with a
      record. */
  lemma ForEverIff<T(!new)>(parse: Bytes -> Option<T>, lines: seq<Bytes>, limit: nat, good: Bytes)
    requires limit > 0 && OneLineEach(lines) && parse([]).None? && Ordinary([good], limit) && parse(good).Some?
    ensures ReadsWantedForEver(parse, lines, limit) <==> NeverStops(lines, limit) && NoFragment(parse, lines, limit)
  {
    if NeverStops(lines, limit) && NoFragment(parse, lines, limit) {
      forall more | Ordinary(more, limit) ensures ReadsWanted(parse, lines + more, limit) {
        GrowsRight(parse, lines, more, limit);
      }
    } else {
      assert Ordinary([], limit);
      GrowsWrong(parse, lines, limit, good);
    }
  }

  lemma GrowsRight<T(!new)>(parse: Bytes -> Option<T>, lines: seq<Bytes>, more: seq<Bytes>, limit: nat)
    requires limit > 0 && OneLineEach(lines) && parse([]).None? && Ordinary(more, limit)
    requires NeverStops(lines, limit) && NoFragment(parse, lines, limit)
    ensures ReadsWanted(parse, lines + more, limit)
  {
    OrdinaryNeverStops(more, limit);
    AllRead(lines, more, limit);
    ReadsWantedIs(parse, lines + more, limit);
    assert NoFragment(parse, lines + more, limit);
    FragmentsNone(parse, lines + more, limit);
    WantedAndFragments(parse, lines + more, limit);
  }

  /** If something ends the reading, the record appended next is not read; if nothing does, a fragment is too much. */
  lemma GrowsWrong<T(!new)>(parse: Bytes -> Option<T>, lines: seq<Bytes>, limit: nat, good: Bytes)
    requires limit > 0 && OneLineEach(lines) && parse([]).None? && Ordinary([good], limit) && parse(good).Some?
    requires !NeverStops(lines, limit) || !NoFragment(parse, lines, limit)
    ensures !ReadsWanted(parse, lines + [], limit) || !ReadsWanted(parse, lines + [good], limit)
  {
    assert lines + [] == lines;
    ReadsWantedIs(parse, lines, limit);
    ReadsWantedIs(parse, lines + [good], limit);
    if NeverStops(lines, limit) {
      AllRead(lines, [], limit);
      WantedAndFragments(parse, lines, limit);
      FragmentsNone(parse, lines, limit);
    } else {
      AllRead(lines, [good], limit);
      FittingAppend(lines, [good], limit);
      assert Fitting([good], limit) == [good] + Fitting([], limit) == [good];
      ParsedAppend(parse, Fitting(lines, limit), [good]);
      assert Parsed(parse, [good]) == Parse1(parse, good) + Parsed(parse, []);
      assert |Wanted(parse, lines + [good], limit)| == |Wanted(parse, lines, limit)| + 1;
    }
  }

  // ---------- three files ----------

  /** A record, a blank line and another record. */
  lemma FirstRecordOnly<T>(parse: Bytes -> Option<T>, a: Bytes, b: Bytes, limit: nat, max: nat)
    requires Ordinary([a], limit) && '\n' !in b && max > 0 && parse(a).Some?
    ensures Records(parse, a + ['\n', '\n'] + b + ['\n'], limit, max) == [parse(a).value]
  {
    assert a == [a][0];
    var rest := ['\n'] + (b + ['\n']);
    assert a + ['\n', '\n'] + b + ['\n'] == a + ['\n'] + rest;
    ReadBack(a, rest, limit);
    RecordsStep(parse, a + ['\n'] + rest, limit, max);
    assert LineLength(rest, limit) == 0;
  }

  /** A line that just fills the buffer and holds no record: its newline reads as a blank line. */
  lemma FullLineStops<T>(parse: Bytes -> Option<T>, x: Bytes, g: Bytes, limit: nat, max: nat)
    requires limit > 0 && |x| == limit && '\n' !in x && parse(x).None?
    ensures Records(parse, x + (['\n'] + g), limit, max) == []
  {
    var f := x + (['\n'] + g);
    LongRead(x, ['\n'] + g, limit);
    assert x[..limit] == x && x[limit..] + (['\n'] + g) == ['\n'] + g;
    if max > 0 { RecordsStep(parse, f, limit, max); }
  }

  /** A longer line whose tail looks like a record. */
  lemma TailIsRead<T>(parse: Bytes -> Option<T>, x: Bytes, tail: Bytes, limit: nat, max: nat)
    requires |x| == limit && '\n' !in x && parse(x).None? && Ordinary([tail], limit) && parse(tail).Some? && max > 0
    ensures Records(parse, x + (tail + ['\n']), limit, max) == [parse(tail).value]
    ensures Wanted(parse, [x + tail], limit) == []
  {
    assert tail == [tail][0];
    LongRead(x, tail + ['\n'], limit);
    assert x[..limit] == x && x[limit..] + (tail + ['\n']) == tail + ['\n'];
    RecordsStep(parse, x + (tail + ['\n']), limit, max);
    assert tail + ['\n'] + [] == tail + ['\n'];
    ReadBack(tail, [], limit);
    RecordsStep(parse, tail + ['\n'], limit, max);
    assert Fitting([x + tail], limit) == [] + Fitting([], limit);
  }

  lemma StandInLayout(x: Bytes, a: Bytes, limit: nat)
    requires |x| == limit && 0 < |a| < limit
    ensures var lines := [x + a, [], a];
            && Pieces(x + a, limit) == [x, a] && AllPieces(ReadLines(lines, limit), limit) == [x, a] + [[]]
            && ReadLines(lines, limit) == [x + a, []] && Unread(lines, limit) == [a] && Fitting(lines, limit) == [[], a]
  {
    var lines := [x + a, [], a];
    assert (x + a)[..limit] == x && (x + a)[limit..] == a;
    assert Pieces(x + a, limit) == [x] + Pieces(a, limit);
    assert lines[1..] == [[], a] && [[], a][1..] == [a] && [a][1..] == [];
    assert ReadLines([[], a], limit) == [[]] && Unread([[], a], limit) == [a];
    assert [x + a, []][1..] == [[]];
    assert AllPieces([[]], limit) == [[]] + AllPieces([], limit);
    assert Fitting([a], limit) == [a] + Fitting([], limit);
    assert Fitting([[], a], limit) == [[]] + Fitting([a], limit);
  }

  /** A fragment that stands where a lost record should: both conditions fail, and what is read is right by chance. */
  lemma FragmentStandsIn<T(!new)>(parse: Bytes -> Option<T>, x: Bytes, a: Bytes, limit: nat)
    requires 0 < |a| < limit == |x| && '\n' !in x && '\n' !in a && parse(x).None? && parse([]).None? && parse(a).Some?
    ensures var lines := [x + a, [], a];
            && ReadsWanted(parse, lines, limit)
            && !NoFragment(parse, ReadLines(lines, limit), limit) && !NothingUnread(parse, lines, limit)
  {
    var lines := [x + a, [], a];
    StandInLayout(x, a, limit);
    assert Parsed(parse, [[]]) == Parse1(parse, []) + Parsed(parse, []);
    ParsedTwo(parse, x, a);
    ParsedAppend(parse, [x, a], [[]]);
    ParsedTwo(parse, [], a);
    ReadsWantedIs(parse, lines, limit);
    assert parse(Pieces(ReadLines(lines, limit)[0], limit)[1]).Some?;
    assert a in Unread(lines, limit);
  }

  lemma ParsedTwo<T>(parse: Bytes -> Option<T>, a: Bytes, b: Bytes)
    requires parse(a).None? && parse(b).Some?
    ensures Parsed(parse, [a, b]) == [parse(b).value]
  {
    assert [a, b][1..] == [b] && [b][1..] == [];
    assert Parsed(parse, [b]) == Parse1(parse, b) + Parsed(parse, []);
    assert Parsed(parse, [a, b]) == Parse1(parse, a) + Parsed(parse, [b]);
  }
}
