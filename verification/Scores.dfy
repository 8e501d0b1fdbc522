/** The score file: `name:score` lines, printed with %d and read back with strtol. */
module Scores {
  import opened Bytes
  import opened Lines
  import opened RecordFiles
  import opened SkippedLines

  const MAX_TOTAL_SCORES: nat := 500

  /** The line buffer of load_all_scores_from_file holds MAX_ID_LEN + 16 bytes, one of them the NUL. */
  const SCORE_LINE: nat := MAX_ID_LEN + 15

  const INT_MIN := -0x8000_0000
  const INT_SIZE := 0x1_0000_0000
  const LONG_MIN := -0x8000_0000_0000_0000
  const LONG_MAX := 0x7FFF_FFFF_FFFF_FFFF

  predicate IsInt(n: int) {
    INT_MIN <= n < INT_MIN + INT_SIZE
  }

  /** The conversion from long to int: the low 32 bits, read as two's complement. */
  function ToInt(n: int): (r: int)
    ensures IsInt(r) && (IsInt(n) ==> r == n) && (n - r) % 0x1_0000_0000 == 0
  {
    (n - INT_MIN) % INT_SIZE + INT_MIN
  }

  // ---------- printing with %d ----------

  function Digit(d: nat): (c: Byte)
    requires d < 10
    ensures IsDigit(c) && DigitValue(c) == d
  {
    ('0' as int + d) as char
  }

  predicate IsDigit(c: Byte) {
    '0' <= c <= '9'
  }

  function DigitValue(c: Byte): nat {
    if IsDigit(c) then c as int - '0' as int else 0
  }

  function DecimalNat(n: nat): (s: Bytes)
    ensures |s| > 0 && forall i :: 0 <= i < |s| ==> IsDigit(s[i])
  {
    if n < 10 then [Digit(n)] else DecimalNat(n / 10) + [Digit(n % 10)]
  }

  function Decimal(n: int): (s: Bytes)
    ensures |s| > 0 && forall i :: 0 <= i < |s| ==> IsDigit(s[i]) || s[i] == '-'
  {
    if n < 0 then ['-'] + DecimalNat(-n) else DecimalNat(n)
  }

  // ---------- strtol with base 10 ----------

  predicate IsSpace(c: Byte) {
    c == ' ' || 9 <= c as int <= 13
  }

  function SkipSpaces(s: Bytes): Bytes {
    if s != [] && IsSpace(s[0]) then SkipSpaces(s[1..]) else s
  }

  /** How many digits s starts with. */
  function DigitRun(s: Bytes): (n: nat)
    ensures n <= |s|
  {
    if s == [] || !IsDigit(s[0]) then 0 else 1 + DigitRun(s[1..])
  }

  /** The number a run of digits stands for. */
  function Value(s: Bytes): nat {
    if s == [] then 0 else Value(s[..|s| - 1]) * 10 + DigitValue(s[|s| - 1])
  }

  function Clamp(n: int): (r: int)
    ensures LONG_MIN <= r <= LONG_MAX && (LONG_MIN <= n <= LONG_MAX ==> r == n)
    ensures (n > LONG_MAX ==> r == LONG_MAX) && (n < LONG_MIN ==> r == LONG_MIN)
  {
    if n < LONG_MIN then LONG_MIN else if n > LONG_MAX then LONG_MAX else n
  }

  /** Spaces, an optional sign, digits: the clamped value and what follows. None when there are no digits
      (then endptr is the start). */
  function Strtol(s: Bytes): Option<(int, Bytes)> {
    SignedNumber(SkipSpaces(s))
  }

  function SignedNumber(t: Bytes): Option<(int, Bytes)> {
    var signed := t != [] && (t[0] == '-' || t[0] == '+');
    var u := if signed then t[1..] else t;
    var n := DigitRun(u);
    if n == 0 then None
    else
      var v: int := Value(u[..n]);
      Some((Clamp(if signed && t[0] == '-' then -v else v), u[n..]))
  }

  // ---------- records ----------

  datatype Score = Score(name: Bytes, score: int)

  /** A line is loaded when it has a colon, a short name, and nothing but one number after the colon. */
  function ParseScore(line: Bytes): Option<Score> {
    var s := CString(line);
    var i := ColonAt(s);
    if i == |s| || i >= MAX_ID_LEN then None
    else
      match Strtol(s[i + 1..])
      case None => None
      case Some((v, rest)) => if rest == [] then Some(Score(s[..i], ToInt(v))) else None
  }

  function Load(f: Bytes, max: nat): seq<Score> {
    Records(ParseScore, f, SCORE_LINE, max)
  }

  /** The line that `"%s:%d\n"` prints, without its newline. */
  function Printed(r: Score): Bytes {
    r.name + [':'] + Decimal(r.score)
  }

  function PrintedAll(rs: seq<Score>): seq<Bytes> {
    seq(|rs|, i requires 0 <= i < |rs| => Printed(rs[i]))
  }

  /** The loop of `load_all_scores_from_file` over the open file. */
  method ReadScores(file: Reader, scores: array<Score>) returns (count: nat)
    requires file.Valid()
    modifies file, scores
    ensures count <= scores.Length && scores[..count] == Load(old(file.Left()), scores.Length)
  {
    count := 0;
    ghost var all := RecordsOnto(ParseScore, [], file.Left(), SCORE_LINE, scores.Length);
    OntoNothing(ParseScore, file.Left(), SCORE_LINE, scores.Length);
    ghost var got: seq<Score> := [];
    while count < scores.Length
      invariant file.Valid() && count <= scores.Length && got == scores[..count]
      invariant RecordsOnto(ParseScore, got, file.Left(), SCORE_LINE, scores.Length) == all
      decreases |file.Left()|, scores.Length - count
    {
      var line := file.ReadLine(SCORE_LINE);
      if |line| == 0 { return; }
      var record := ParseScore(line);
      if record.Some? {
        scores[count] := record.value;
        count, got := count + 1, got + [record.value];
      }
    }
  }

  /** `data/scores.txt`. */
  class ScoreFile {
    var contents: Bytes

    constructor (contents: Bytes)
      ensures this.contents == contents
    {
      this.contents := contents;
    }

    /** `submit_score_impl` with `add_score_to_file`. */
    method Submit(name: Bytes, score: int, w: Write) returns (success: bool)
      modifies this
      ensures success <==> name != [] && w == Written
      ensures contents == if name != [] && w != Lost
                          then old(contents) + Printed(Score(name, score)) + ['\n'] else old(contents)
    {
      if |name| == 0 || w == Lost { return false; }
      contents := contents + Printed(Score(name, score)) + ['\n'];
      return w == Written;
    }

    /** `load_all_scores_from_file` into `scores`; `max_records` is the array's length, `io` says whether the file can
        be opened and locked. A file that does not exist is an empty one. */
    method LoadAll(scores: array<Score>, io: bool) returns (count: int)
      modifies scores
      ensures !io ==> count == -1 && scores[..] == old(scores[..])
      ensures io ==> 0 <= count <= scores.Length && scores[..count] == Load(contents, scores.Length)
    {
      if !io { return -1; }
      var file := new Reader(contents);
      count := ReadScores(file, scores);
    }
  }

  // ---------- what was printed is read back ----------

  lemma {:induction false} DigitRunAll(s: Bytes)
    requires forall i :: 0 <= i < |s| ==> IsDigit(s[i])
    ensures DigitRun(s) == |s|
  {
    if s != [] { DigitRunAll(s[1..]); }
  }

  lemma {:induction false} ValueOfDecimal(n: nat)
    ensures Value(DecimalNat(n)) == n
  {
    if n >= 10 {
      ValueOfDecimal(n / 10);
      assert DecimalNat(n)[..|DecimalNat(n)| - 1] == DecimalNat(n / 10);
    } else {
      assert Value([]) == 0;
      assert DecimalNat(n)[..0] == [];
    }
  }

  lemma DigitsOnly(n: nat)
    ensures var u := DecimalNat(n);
            DigitRun(u) == |u| && u[..|u|] == u && u[|u|..] == [] && Value(u) == n
            && u[0] != '-' && u[0] != '+' && !IsSpace(u[0])
  {
    DigitRunAll(DecimalNat(n));
    ValueOfDecimal(n);
    assert IsDigit(DecimalNat(n)[0]);
  }

  lemma StrtolReadsNat(n: nat)
    requires n <= LONG_MAX
    ensures Strtol(DecimalNat(n)) == Some((n, []))
  {
    DigitsOnly(n);
  }

  lemma StrtolReadsNegative(n: nat)
    requires 0 < n <= -LONG_MIN
    ensures Strtol(['-'] + DecimalNat(n)) == Some((0 - n, []))
  {
    DigitsOnly(n);
    assert (['-'] + DecimalNat(n))[1..] == DecimalNat(n);
  }

  lemma StrtolReadsDecimal(n: int)
    requires LONG_MIN <= n <= LONG_MAX
    ensures Strtol(Decimal(n)) == Some((n, []))
  {
    if n < 0 { StrtolReadsNegative(-n); } else { StrtolReadsNat(n); }
  }

  predicate AllSpaces(s: Bytes) {
    forall i :: 0 <= i < |s| ==> s[i] as int in {9, 10, 11, 12, 13, 32}
  }

  predicate AllDigits(s: Bytes) {
    forall i :: 0 <= i < |s| ==> '0' <= s[i] <= '9'
  }

  /** s is white space, a sign or none, digits, and a rest that starts with no digit. */
  ghost predicate Numeral(s: Bytes, space: Bytes, sign: Bytes, digits: Bytes, rest: Bytes) {
    && s == space + sign + digits + rest
    && AllSpaces(space)
    && (sign == [] || sign == ['-'] || sign == ['+'])
    && digits != [] && AllDigits(digits)
    && (rest != [] ==> !('0' <= rest[0] <= '9'))
  }

  lemma {:induction false} SkipsSpaces(space: Bytes, t: Bytes)
    requires AllSpaces(space)
    requires t != [] ==> t[0] as int !in {9, 10, 11, 12, 13, 32}
    ensures SkipSpaces(space + t) == t
  {
    if space != [] {
      assert (space + t)[1..] == space[1..] + t;
      SkipsSpaces(space[1..], t);
    } else {
      assert space + t == t;
    }
  }

  lemma {:induction false} SkippedSpaces(s: Bytes) returns (space: Bytes)
    ensures s == space + SkipSpaces(s) && AllSpaces(space)
    ensures SkipSpaces(s) != [] ==> !IsSpace(SkipSpaces(s)[0])
  {
    space := [];
    if s != [] && IsSpace(s[0]) {
      space := SkippedSpaces(s[1..]);
      assert s == [s[0]] + s[1..];
      assert s == [s[0]] + space + SkipSpaces(s);
      space := [s[0]] + space;
    }
  }

  lemma {:induction false} DigitRunIs(digits: Bytes, rest: Bytes)
    requires AllDigits(digits) && (rest != [] ==> !('0' <= rest[0] <= '9'))
    ensures DigitRun(digits + rest) == |digits|
  {
    if digits != [] {
      assert (digits + rest)[1..] == digits[1..] + rest;
      DigitRunIs(digits[1..], rest);
    } else {
      assert digits + rest == rest;
    }
  }

  /** What strtol returns for such a string: the number the digits stand for, clamped to a long, and the rest. */
  lemma StrtolReads(s: Bytes, space: Bytes, sign: Bytes, digits: Bytes, rest: Bytes)
    requires Numeral(s, space, sign, digits, rest)
    ensures Strtol(s) == Some((Clamp(if sign == ['-'] then -(Value(digits) as int) else Value(digits)), rest))
  {
    var u := digits + rest;
    assert s == space + (sign + u) && u[0] == digits[0];
    AfterSign(sign, u);
    SkipsSpaces(space, sign + u);
    SignedReads(sign, digits, rest);
  }

  lemma SignedReads(sign: Bytes, digits: Bytes, rest: Bytes)
    requires (sign == [] || sign == ['-'] || sign == ['+']) && digits != [] && AllDigits(digits)
    requires rest != [] ==> !('0' <= rest[0] <= '9')
    ensures SignedNumber(sign + (digits + rest))
            == Some((Clamp(if sign == ['-'] then -(Value(digits) as int) else Value(digits)), rest))
  {
    var u := digits + rest;
    assert u[0] == digits[0] && u[..|digits|] == digits && u[|digits|..] == rest;
    DigitRunIs(digits, rest);
    AfterSign(sign, u);
  }

  lemma AfterSign(sign: Bytes, u: Bytes)
    requires u != [] && IsDigit(u[0]) && (sign == [] || sign == ['-'] || sign == ['+'])
    ensures var t := sign + u;
            && (t[0] == '-' || t[0] == '+' <==> sign != []) && (t[0] == '-' <==> sign == ['-'])
            && (if sign != [] then t[1..] else t) == u
            && t[0] as int !in {9, 10, 11, 12, 13, 32}
  {
  }

  /** And it reads nothing else. */
  lemma StrtolParts(s: Bytes) returns (space: Bytes, sign: Bytes, digits: Bytes, rest: Bytes)
    requires Strtol(s).Some?
    ensures Numeral(s, space, sign, digits, rest)
  {
    space := SkippedSpaces(s);
    sign, digits, rest := SignedParts(SkipSpaces(s));
    FourParts(s, space, SkipSpaces(s), sign, digits + rest, digits, rest);
  }

  lemma SignedParts(t: Bytes) returns (sign: Bytes, digits: Bytes, rest: Bytes)
    requires DigitRun(if t != [] && (t[0] == '-' || t[0] == '+') then t[1..] else t) > 0
    ensures t == sign + (digits + rest) && (sign == [] || sign == ['-'] || sign == ['+'])
    ensures digits != [] && AllDigits(digits) && (rest != [] ==> !('0' <= rest[0] <= '9'))
  {
    var signed := t[0] == '-' || t[0] == '+';
    sign := if signed then [t[0]] else [];
    var u := if signed then t[1..] else t;
    digits, rest := u[..DigitRun(u)], u[DigitRun(u)..];
    DigitRunEnds(u);
    assert u == digits + rest && t == sign + u;
  }

  lemma FourParts(s: Bytes, space: Bytes, t: Bytes, sign: Bytes, u: Bytes, digits: Bytes, rest: Bytes)
    requires s == space + t && t == sign + u && u == digits + rest
    ensures s == space + sign + digits + rest
  {
  }

  lemma {:induction false} DigitRunEnds(u: Bytes)
    ensures AllDigits(u[..DigitRun(u)])
    ensures DigitRun(u) < |u| ==> !('0' <= u[DigitRun(u)] <= '9')
  {
    if u != [] && IsDigit(u[0]) {
      DigitRunEnds(u[1..]);
      assert u[..DigitRun(u)] == [u[0]] + u[1..][..DigitRun(u[1..])];
    }
  }

  /** A line is a record if and only if it is a name of at most 31 bytes, a colon, and something strtol reads whole. */
  lemma ParseScoreIff(line: Bytes, r: Score)
    ensures var s := CString(line); var n := |r.name|;
            ParseScore(line) == Some(r) <==>
              && r.name + [':'] <= s && ':' !in r.name && n < 32
              && Strtol(s[n + 1..]).Some? && Strtol(s[n + 1..]).value.1 == []
              && r.score == ToInt(Strtol(s[n + 1..]).value.0)
  {
    var s := CString(line);
    ColonIsFirst(s);
    if r.name + [':'] <= s && ':' !in r.name {
      ColonAfter(r.name, s[|r.name| + 1..]);
      assert s == r.name + [':'] + s[|r.name| + 1..] && s[..|r.name|] == r.name;
    }
    if ColonAt(s) < |s| { assert s[..ColonAt(s)] + [':'] == s[..ColonAt(s) + 1]; }
  }

  lemma {:induction false} DecimalLength(n: nat, k: nat)
    requires k >= 1 && n < Pow10(k)
    ensures |DecimalNat(n)| <= k
  {
    if n >= 10 {
      DecimalLength(n / 10, k - 1);
    }
  }

  function Pow10(k: nat): nat {
    if k == 0 then 1 else 10 * Pow10(k - 1)
  }

  predicate WellFormed(r: Score) {
    CleanName(r.name) && IsInt(r.score)
  }

  predicate AllWellFormed(rs: seq<Score>) {
    forall i :: 0 <= i < |rs| ==> WellFormed(rs[i])
  }

  lemma PrintedLine(r: Score)
    requires WellFormed(r)
    ensures var line := Printed(r);
            '\n' !in line && '\0' !in line && 0 < |line| < SCORE_LINE
  {
    var n: nat := if r.score < 0 then -r.score else r.score;
    assert Pow10(10) == 10000000000 by {
      assert Pow10(3) == 1000;
      assert Pow10(5) == 100000;
      assert Pow10(8) == 100000000;
    }
    DecimalLength(n, 10);
  }

  /** A printed record fits the line buffer (31 + 1 + 11 < 47) and parses back to itself. */
  lemma ParsePrinted(r: Score)
    requires WellFormed(r)
    ensures ParseScore(Printed(r)) == Some(r)
  {
    var d := Decimal(r.score);
    var line := Printed(r);
    PrintedLine(r);
    CStringIs(line);
    ColonAfter(r.name, d);
    assert line[|r.name| + 1..] == d && line[..|r.name|] == r.name;
    StrtolReadsDecimal(r.score);
  }

  /** Loading what well-formed submissions wrote returns the first `max` of them, in order. */
  lemma LoadPrinted(rs: seq<Score>, max: nat)
    requires AllWellFormed(rs)
    ensures Load(Joined(PrintedAll(rs)), max) == Take(rs, max)
  {
    forall i | 0 <= i < |rs|
      ensures 0 < |Printed(rs[i])| < SCORE_LINE && '\n' !in Printed(rs[i]) && ParseScore(Printed(rs[i])) == Some(rs[i])
    {
      PrintedLine(rs[i]);
      ParsePrinted(rs[i]);
    }
    ReadJoined(ParseScore, PrintedAll(rs), rs, SCORE_LINE, max);
  }

  // ---------- malformed lines ----------

  /** Malformed lines, blank ones and ones too long for the buffer included, are skipped and nothing else is, whatever
      the size of the array. */
  ghost predicate LoadsWanted(lines: seq<Bytes>) {
    forall max: nat :: Load(Joined(lines), max) == Take(Wanted(ParseScore, lines, SCORE_LINE), max)
  }

  lemma LoadsWantedIs(lines: seq<Bytes>)
    ensures LoadsWanted(lines) <==> ReadsWanted(ParseScore, lines, SCORE_LINE)
  {
    assert forall max: nat :: Load(Joined(lines), max) == Records(ParseScore, Joined(lines), SCORE_LINE, max);
  }

  /** When that holds of one file, SkippedLines.SkipsMalformedIff for scores. A blank line, or one whose length is a
      multiple of 47, ends the reading, because the reader returns zero for what is left of it, as at the end of the
      file; and a longer line is read in pieces, any of which may look like a record. */
  lemma MalformedSkippedIff(lines: seq<Bytes>)
    requires OneLineEach(lines)
    ensures NoFragment(ParseScore, ReadLines(lines, SCORE_LINE), SCORE_LINE) ==>
              (LoadsWanted(lines) <==> NothingUnread(ParseScore, lines, SCORE_LINE))
    ensures NothingUnread(ParseScore, lines, SCORE_LINE) ==>
              (LoadsWanted(lines) <==> NoFragment(ParseScore, ReadLines(lines, SCORE_LINE), SCORE_LINE))
  {
    LoadsWantedIs(lines);
    SkipsMalformedIff(ParseScore, lines, SCORE_LINE);
  }

  /** From now on every score that is appended will be loaded right, and no other, if and only if no line has a length
      that is a multiple of 47 and no piece of a line of more than 47 bytes looks like a record. */
  lemma LoadsRightForEverIff(lines: seq<Bytes>)
    requires OneLineEach(lines)
    ensures ReadsWantedForEver(ParseScore, lines, SCORE_LINE) <==>
            (forall i :: 0 <= i < |lines| ==> |lines[i]| % SCORE_LINE != 0) && NoFragment(ParseScore, lines, SCORE_LINE)
  {
    var q := Score([], 0);
    PrintedLine(q);
    ParsePrinted(q);
    ForEverIff(ParseScore, lines, SCORE_LINE, Printed(q));
    forall i | 0 <= i < |lines| ensures Stops(lines[i], SCORE_LINE) <==> |lines[i]| % SCORE_LINE == 0 {
      BlankPieceIff(lines[i], SCORE_LINE);
      MultipleOf47(|lines[i]|);
    }
  }

  lemma {:induction false} MultipleOf47(n: nat)
    ensures IsMultiple(n, SCORE_LINE) <==> n % SCORE_LINE == 0
  {
    if n >= SCORE_LINE { MultipleOf47(n - SCORE_LINE); }
  }

  lemma PrintedOrdinary(r: Score)
    requires WellFormed(r)
    ensures Ordinary([Printed(r)], SCORE_LINE) && ParseScore(Printed(r)) == Some(r) && OneLineEach([Printed(r)])
  {
    PrintedLine(r);
    ParsePrinted(r);
  }

  /** A record, a blank line and another record: only the first is ever loaded. */
  lemma RecordAfterBlankLost(q: Score, r: Score, max: nat)
    requires WellFormed(q) && WellFormed(r) && max > 0
    ensures Load(Printed(q) + ['\n', '\n'] + Printed(r) + ['\n'], max) == [q]
  {
    PrintedOrdinary(q);
    PrintedOrdinary(r);
    FirstRecordOnly(ParseScore, Printed(q), Printed(r), SCORE_LINE, max);
  }

  lemma BlankLineText(q: Score, r: Score)
    requires q == Score("a", 1) && r == Score("b", 2)
    ensures Printed(q) + ['\n', '\n'] + Printed(r) + ['\n'] == "a:1\n\nb:2\n"
  {
    assert DecimalNat(1) == [Digit(1)] && DecimalNat(2) == [Digit(2)];
  }

  /** For example "a:1\n\nb:2\n" loads as the one score of a. */
  lemma BlankLineExample(f: Bytes, q: Score, max: nat)
    requires f == "a:1\n\nb:2\n" && q == Score("a", 1) && max > 0
    ensures Load(f, max) == [q]
  {
    var r := Score("b", 2);
    BlankLineText(q, r);
    RecordAfterBlankLost(q, r, max);
  }

  /** 47 bytes without a colon. */
  predicate Padding(x: Bytes) {
    |x| == 47 && ':' !in x && '\n' !in x
  }

  lemma PaddingHoldsNothing(x: Bytes)
    requires Padding(x)
    ensures ParseScore(x).None?
  {
    CStringIs(x);
    ColonIsFirst(CString(x));
  }

  /** A malformed line of exactly 47 bytes hides every record after it, with no blank line in the file. */
  lemma FullLineHidesAll(x: Bytes, r: Score, max: nat)
    requires Padding(x) && WellFormed(r)
    ensures Load(x + ['\n'] + Printed(r) + ['\n'], max) == []
  {
    PaddingHoldsNothing(x);
    FullLineStops(ParseScore, x, Printed(r) + ['\n'], SCORE_LINE, max);
    assert x + (['\n'] + (Printed(r) + ['\n'])) == x + ['\n'] + Printed(r) + ['\n'];
  }

  /** A longer malformed line is not skipped: what follows its first 47 bytes is loaded as a record. */
  lemma LongLineLoadsTail(x: Bytes, r: Score, max: nat)
    requires Padding(x) && WellFormed(r) && max > 0
    ensures Load(x + Printed(r) + ['\n'], max) == [r]
    ensures Wanted(ParseScore, [x + Printed(r)], SCORE_LINE) == []
  {
    PaddingHoldsNothing(x);
    PrintedOrdinary(r);
    TailIsRead(ParseScore, x, Printed(r), SCORE_LINE, max);
    assert x + (Printed(r) + ['\n']) == x + Printed(r) + ['\n'];
  }

  lemma ParsedIsWellFormed(line: Bytes)
    requires '\n' !in line && ParseScore(line).Some?
    ensures WellFormed(ParseScore(line).value)
  {
    CStringIs(line);
    ColonIsFirst(CString(line));
  }

  /** Whatever the file holds, a loaded record is well formed: a name with a colon or a newline never loads. */
  lemma LoadedAreWellFormed(f: Bytes, max: nat, i: nat)
    requires i < |Load(f, max)|
    ensures WellFormed(Load(f, max)[i])
  {
    var line := RecordSource(ParseScore, f, SCORE_LINE, max, i);
    ParsedIsWellFormed(line);
  }
}
