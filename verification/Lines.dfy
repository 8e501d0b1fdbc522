/** Reading a file line by line through a bounded buffer, as `read_line` and `read_line_direct` do. */
module Lines {
  import opened Bytes

  /** How many bytes one call stores: up to the next newline, the end of the file, or the buffer limit. */
  function LineLength(f: Bytes, limit: nat): (n: nat)
    ensures n <= |f| && n <= limit
  {
    if limit == 0 || f == [] || f[0] == '\n' then 0 else 1 + LineLength(f[1..], limit - 1)
  }

  /** A line holds no newline, and stops short of the limit only at a newline or the end of the file. */
  lemma {:induction false} LineEnds(f: Bytes, limit: nat)
    ensures '\n' !in f[..LineLength(f, limit)]
    ensures LineLength(f, limit) < limit && LineLength(f, limit) < |f| ==> f[LineLength(f, limit)] == '\n'
  {
    if limit > 0 && f != [] && f[0] != '\n' {
      LineEnds(f[1..], limit - 1);
      assert f[..LineLength(f, limit)] == [f[0]] + f[1..][..LineLength(f, limit) - 1];
    }
  }

  function Line(f: Bytes, limit: nat): Bytes {
    f[..LineLength(f, limit)]
  }

  /** What is left to read: the newline is consumed only when it was seen within the limit. */
  function Rest(f: Bytes, limit: nat): (r: Bytes)
    ensures |r| <= |f| && (limit > 0 && f != [] ==> |r| < |f|)
  {
    var n := LineLength(f, limit);
    if n < limit && n < |f| then f[n + 1..] else f[n..]
  }

  lemma SplitAt(data: Bytes, start: nat, end: nat, limit: nat)
    requires start <= end <= |data| && LineLength(data[start..], limit) == end - start
    ensures Line(data[start..], limit) == data[start..end]
    ensures Rest(data[start..], limit) == data[if end - start < limit && end < |data| then end + 1 else end..]
  {
  }

  /** An open file: its contents and the read position. */
  class Reader {
    const data: Bytes
    var pos: nat

    ghost predicate Valid()
      reads this
    {
      pos <= |data|
    }

    /** What has not been read yet. */
    ghost function Left(): Bytes
      requires Valid()
      reads this
    {
      data[pos..]
    }

    constructor (data: Bytes)
      ensures Valid() && Left() == data && this.data == data
    {
      this.data := data;
      pos := 0;
    }

    /** `read_line(fd, buffer, limit + 1)`: byte by byte; the result's length is what the C function returns. */
    method ReadLine(limit: nat) returns (line: Bytes)
      requires Valid()
      modifies this
      ensures Valid() && line == Line(old(Left()), limit) && Left() == Rest(old(Left()), limit)
    {
      line := [];
      ghost var start := pos;
      while |line| < limit && pos < |data| && data[pos] != '\n'
        invariant Valid() && pos == start + |line| && |line| <= limit && line == data[start..pos]
        invariant LineLength(data[start..], limit) == |line| + LineLength(data[pos..], limit - |line|)
        decreases |data| - pos
      {
        assert data[pos..][1..] == data[pos + 1..];
        line := line + [data[pos]];
        pos := pos + 1;
      }
      SplitAt(data, start, pos, limit);
      if |line| < limit && pos < |data| { pos := pos + 1; }
    }
  }

  // ---------- appending to a file of whole lines ----------

  /** What becomes of an append: nothing reaches the file, or all of it does, in which case closing the file can still
      report a failure. */
  datatype Write = Lost | Written | Unconfirmed

  /** Empty, or ended by a newline. */
  predicate Terminated(f: Bytes) {
    f == [] || f[|f| - 1] == '\n'
  }

  lemma {:induction false} AppendKeepsLength(f: Bytes, g: Bytes, limit: nat)
    requires f != [] && Terminated(f)
    ensures LineLength(f + g, limit) == LineLength(f, limit) < |f|
  {
    if limit > 0 && f[0] != '\n' {
      assert |f| > 1;
      assert (f + g)[1..] == f[1..] + g;
      AppendKeepsLength(f[1..], g, limit - 1);
    }
  }

  lemma SliceAppend(f: Bytes, g: Bytes, n: nat)
    requires n <= |f|
    ensures (f + g)[..n] == f[..n] && (f + g)[n..] == f[n..] + g
    ensures Terminated(f) ==> Terminated(f[n..])
  {
  }

  /** Appending to a terminated, nonempty file does not change what the next read returns. */
  lemma AppendKeepsLine(f: Bytes, g: Bytes, limit: nat)
    requires f != [] && Terminated(f)
    ensures Line(f + g, limit) == Line(f, limit)
    ensures Rest(f + g, limit) == Rest(f, limit) + g && Terminated(Rest(f, limit))
  {
    AppendKeepsLength(f, g, limit);
    var n := LineLength(f, limit);
    SliceAppend(f, g, n);
    SliceAppend(f, g, n + 1);
  }

  /** A newline-free line of 1 to limit - 1 bytes followed by a newline reads back as itself. */
  lemma {:induction false} ReadBack(line: Bytes, g: Bytes, limit: nat)
    requires '\n' !in line && |line| < limit
    ensures Line(line + ['\n'] + g, limit) == line && Rest(line + ['\n'] + g, limit) == g
    ensures LineLength(line + ['\n'] + g, limit) == |line|
  {
    var f := line + ['\n'] + g;
    if line != [] {
      assert f[1..] == line[1..] + ['\n'] + g;
      ReadBack(line[1..], g, limit - 1);
    }
  }

  // ---------- a line split at its first colon ----------

  const MAX_ID_LEN: nat := 32

  /** A name that survives as the first field of a line: short, and free of colon, newline and NUL. */
  predicate CleanName(u: Bytes) {
    |u| < MAX_ID_LEN && ':' !in u && '\n' !in u && '\0' !in u
  }

  function ColonAt(s: Bytes): (i: nat)
    ensures i <= |s|
  {
    if s == [] || s[0] == ':' then 0 else 1 + ColonAt(s[1..])
  }

  lemma {:induction false} ColonIsFirst(s: Bytes)
    ensures ':' !in s[..ColonAt(s)]
    ensures ColonAt(s) < |s| ==> s[ColonAt(s)] == ':'
  {
    if s != [] && s[0] != ':' {
      ColonIsFirst(s[1..]);
      assert s[..ColonAt(s)] == [s[0]] + s[1..][..ColonAt(s) - 1];
    }
  }

  lemma {:induction false} ColonAfter(a: Bytes, b: Bytes)
    requires ':' !in a
    ensures ColonAt(a + [':'] + b) == |a|
  {
    if a != [] {
      assert (a + [':'] + b)[1..] == a[1..] + [':'] + b;
      ColonAfter(a[1..], b);
    }
  }

  // ---------- reading records ----------

  /** The first `max` records that parse, in order; an empty line, or the end of the file, ends the reading. */
  function Records<T>(parse: Bytes -> Option<T>, f: Bytes, limit: nat, max: nat): (r: seq<T>)
    ensures |r| <= max
    decreases |f|
  {
    if max == 0 || LineLength(f, limit) == 0 then []
    else
      match parse(Line(f, limit))
      case Some(record) => [record] + Records(parse, Rest(f, limit), limit, max - 1)
      case None => Records(parse, Rest(f, limit), limit, max)
  }

  lemma RecordsStep<T>(parse: Bytes -> Option<T>, f: Bytes, limit: nat, max: nat)
    requires max > 0
    ensures LineLength(f, limit) == 0 ==> Records(parse, f, limit, max) == []
    ensures LineLength(f, limit) > 0 && parse(Line(f, limit)).None? ==>
              Records(parse, f, limit, max) == Records(parse, Rest(f, limit), limit, max)
    ensures LineLength(f, limit) > 0 && parse(Line(f, limit)).Some? ==>
              Records(parse, f, limit, max)
              == [parse(Line(f, limit)).value] + Records(parse, Rest(f, limit), limit, max - 1)
  {
  }

  /** Every record read came from a line of at most `limit` newline-free bytes. */
  lemma {:induction false} RecordSource<T>(parse: Bytes -> Option<T>, f: Bytes, limit: nat, max: nat, i: nat)
    returns (line: Bytes)
    requires i < |Records(parse, f, limit, max)|
    ensures 0 < |line| <= limit && '\n' !in line && parse(line) == Some(Records(parse, f, limit, max)[i])
    decreases |f|
  {
    line := Line(f, limit);
    LineEnds(f, limit);
    match parse(line)
    case Some(record) =>
      if i > 0 { line := RecordSource(parse, Rest(f, limit), limit, max - 1, i - 1); }
    case None => line := RecordSource(parse, Rest(f, limit), limit, max, i);
  }

  /** The lines of a file, each ended by a newline. */
  function Joined(lines: seq<Bytes>): Bytes {
    if lines == [] then [] else lines[0] + ['\n'] + Joined(lines[1..])
  }

  lemma {:induction false} JoinedAppend(lines: seq<Bytes>, line: Bytes)
    ensures Joined(lines + [line]) == Joined(lines) + line + ['\n']
  {
    if lines != [] {
      JoinedAppend(lines[1..], line);
      assert (lines + [line])[1..] == lines[1..] + [line];
    } else {
      assert [line][1..] == [];
    }
  }

  // ---------- the reading loop ----------

  /** What a reading loop holds at the end if it holds `got` now and `left` is still to be read. */
  ghost function RecordsOnto<T>(parse: Bytes -> Option<T>, got: seq<T>, left: Bytes, limit: nat, max: nat): seq<T>
    decreases |left|
  {
    var line := Line(left, limit);
    if |got| >= max || |line| == 0 then got
    else
      match parse(line)
      case Some(record) => RecordsOnto(parse, got + [record], Rest(left, limit), limit, max)
      case None => RecordsOnto(parse, got, Rest(left, limit), limit, max)
  }

  lemma OntoStep<T>(parse: Bytes -> Option<T>, got: seq<T>, left: Bytes, limit: nat, room: nat)
    requires room > 0 && LineLength(left, limit) > 0
    ensures got + Records(parse, left, limit, room) ==
            match parse(Line(left, limit))
            case Some(record) => got + [record] + Records(parse, Rest(left, limit), limit, room - 1)
            case None => got + Records(parse, Rest(left, limit), limit, room)
  {
    RecordsStep(parse, left, limit, room);
  }

  lemma {:induction false} OntoAppends<T>(parse: Bytes -> Option<T>, got: seq<T>, left: Bytes, limit: nat, max: nat,
                                          room: nat)
    requires |got| + room == max
    ensures RecordsOnto(parse, got, left, limit, max) == got + Records(parse, left, limit, room)
    decreases |left|
  {
    if room > 0 && LineLength(left, limit) > 0 {
      OntoStep(parse, got, left, limit, room);
      match parse(Line(left, limit))
      case Some(record) => OntoAppends(parse, got + [record], Rest(left, limit), limit, max, room - 1);
      case None => OntoAppends(parse, got, Rest(left, limit), limit, max, room);
    } else {
      assert Records(parse, left, limit, room) == [];
    }
  }

  /** A loop that starts with nothing ends with the records of the file. */
  lemma OntoNothing<T>(parse: Bytes -> Option<T>, f: Bytes, limit: nat, max: nat)
    ensures RecordsOnto(parse, [], f, limit, max) == Records(parse, f, limit, max)
  {
    OntoAppends(parse, [], f, limit, max, max);
    assert [] + Records(parse, f, limit, max) == Records(parse, f, limit, max);
  }
}
