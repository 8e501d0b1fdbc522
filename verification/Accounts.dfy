/** The users file: lookup, registration and login. */
module Accounts {
  import opened Bytes
  import opened Lines

  const MAX_PW_LEN: nat := 72

  /** The line buffer of find_user_in_file holds MAX_ID_LEN + MAX_PW_LEN + 3 bytes, one of them the NUL. */
  const USER_LINE: nat := MAX_ID_LEN + MAX_PW_LEN + 2

  datatype User = User(name: Bytes, password: Bytes)

  /** `username:password`, split at the first colon; None for a line that is skipped. */
  function ParseUser(line: Bytes): Option<User> {
    var s := CString(line);
    var i := ColonAt(s);
    if i == |s| || i >= MAX_ID_LEN || |s| - i - 1 >= MAX_PW_LEN then None
    else Some(User(s[..i], s[i + 1..]))
  }

  /** The password of the first parsed line whose name is u. Reading ends at the end of the file or at an empty line. */
  function Lookup(f: Bytes, u: Bytes): Option<Bytes>
    decreases |f|
  {
    var line := Line(f, USER_LINE);
    if |line| == 0 then None
    else
      match ParseUser(line)
      case Some(user) => if user.name == u then Some(user.password) else Lookup(Rest(f, USER_LINE), u)
      case None => Lookup(Rest(f, USER_LINE), u)
  }

  function Record(u: Bytes, p: Bytes): Bytes {
    u + [':'] + p + ['\n']
  }

  /** What add_user_to_file can receive: NUL-free strings that fit their buffers. */
  predicate Storable(u: Bytes, p: Bytes) {
    '\0' !in u && '\0' !in p && 0 < |u| < MAX_ID_LEN && 0 < |p| < MAX_PW_LEN
  }

  /** `data/users.txt` and the operations on it. */
  class UserFile {
    var contents: Bytes

    constructor (contents: Bytes)
      ensures this.contents == contents
    {
      this.contents := contents;
    }

    /** The reading loop of `find_user_in_file`. */
    method FindUser(u: Bytes) returns (found: Option<Bytes>)
      ensures found == Lookup(contents, u)
    {
      var file := new Reader(contents);
      var line := file.ReadLine(USER_LINE);
      while |line| > 0
        invariant file.Valid() && fresh(file)
        invariant Lookup(contents, u) ==
          if |line| == 0 then None
          else match ParseUser(line)
               case Some(user) => if user.name == u then Some(user.password) else Lookup(file.Left(), u)
               case None => Lookup(file.Left(), u)
        decreases |line| + |file.Left()|
      {
        match ParseUser(line) {
          case Some(user) => if user.name == u { return Some(user.password); }
          case None =>
        }
        line := file.ReadLine(USER_LINE);
      }
      return None;
    }

    /** `register_user_impl`; an error while looking the name up counts as a lost write. */
    method Register(u: Bytes, p: Bytes, w: Write) returns (success: bool)
      requires '\0' !in u && '\0' !in p
      modifies this
      ensures success <==> 0 < |u| < 32 && 0 < |p| < 72 && Lookup(old(contents), u).None? && w == Written
      ensures contents == old(contents) +
                          (if 0 < |u| < 32 && 0 < |p| < 72 && Lookup(old(contents), u).None? && w != Lost
                           then u + [':'] + p + ['\n'] else [])
    {
      if |u| == 0 || |p| == 0 || |u| >= MAX_ID_LEN || |p| >= MAX_PW_LEN { return false; }
      var existing := FindUser(u);
      if existing.Some? || w == Lost { return false; }
      contents := contents + Record(u, p);
      return w == Written;
    }

    /** `login_user_impl`: the name of the session afterwards, empty on failure; `io` says whether the file can be
        opened and locked. */
    method Login(u: Bytes, p: Bytes, io: bool) returns (success: bool, user: Bytes)
      ensures success <==> io && Lookup(contents, u) == Some(p)
      ensures user == (if success then Truncated(u, MAX_ID_LEN - 1) else [])
    {
      var stored := FindUser(u);
      if io && stored == Some(p) { return true, Truncated(u, MAX_ID_LEN - 1); }
      return false, [];
    }
  }

  // ---------- parsed names ----------

  /** A line is an account if and only if it is a name of at most 31 bytes without a colon, a colon, and a password of
      at most 71 bytes. */
  lemma ParseUserIff(line: Bytes, u: Bytes, p: Bytes)
    ensures ParseUser(line) == Some(User(u, p)) <==>
            CString(line) == u + [':'] + p && ':' !in u && |u| < 32 && |p| < 72
  {
    var s := CString(line);
    ColonIsFirst(s);
    if s == u + [':'] + p && ':' !in u {
      ColonAfter(u, p);
      assert s[..|u|] == u && s[|u| + 1..] == p;
    }
    if ColonAt(s) < |s| { assert s == s[..ColonAt(s)] + [':'] + s[ColonAt(s) + 1..]; }
  }

  /** Only a clean name can be looked up with success, whatever the file holds. */
  lemma {:induction false} FoundNamesAreClean(f: Bytes, u: Bytes)
    requires Lookup(f, u).Some?
    ensures CleanName(u)
    decreases |f|
  {
    var line := Line(f, USER_LINE);
    LineEnds(f, USER_LINE);
    CStringIs(line);
    ColonIsFirst(CString(line));
    if !(ParseUser(line).Some? && ParseUser(line).value.name == u) {
      FoundNamesAreClean(Rest(f, USER_LINE), u);
    }
  }

  // ---------- first registration wins ----------

  /** The file only grows by appends; what a lookup found once it finds for ever. */
  lemma {:induction false} LookupStable(f: Bytes, g: Bytes, u: Bytes)
    requires Terminated(f) && Lookup(f, u).Some?
    ensures Lookup(f + g, u) == Lookup(f, u)
    decreases |f|
  {
    AppendKeepsLine(f, g, USER_LINE);
    var line := Line(f, USER_LINE);
    if !(ParseUser(line).Some? && ParseUser(line).value.name == u) {
      LookupStable(Rest(f, USER_LINE), g, u);
    }
  }

  // ---------- register, then look up ----------

  /** Every read up to the end of the file returns a nonempty line: nothing stops a lookup early. */
  predicate ReadsOn(f: Bytes)
    decreases |f|
  {
    f == [] || (LineLength(f, USER_LINE) > 0 && ReadsOn(Rest(f, USER_LINE)))
  }

  /** A record of newline-free strings fits the line buffer: 31 + 1 + 71 < 106. */
  lemma RecordReads(u: Bytes, p: Bytes, g: Bytes)
    requires Storable(u, p) && '\n' !in u && '\n' !in p
    ensures Line(Record(u, p) + g, USER_LINE) == u + [':'] + p && Rest(Record(u, p) + g, USER_LINE) == g
    ensures LineLength(Record(u, p) + g, USER_LINE) == |u| + 1 + |p|
  {
    var line := u + [':'] + p;
    assert Record(u, p) + g == line + ['\n'] + g;
    ReadBack(line, g, USER_LINE);
  }

  /** Bytes appended to whole lines are looked at exactly if nothing stops the lookup before them. */
  lemma {:induction false} AppendAnswers(f: Bytes, g: Bytes, v: Bytes)
    requires Terminated(f)
    ensures Lookup(f + g, v) ==
              if Lookup(f, v).Some? then Lookup(f, v) else if ReadsOn(f) then Lookup(g, v) else None
    ensures ReadsOn(f + g) <==> ReadsOn(f) && ReadsOn(g)
    decreases |f|
  {
    if f == [] {
      assert f + g == g;
    } else {
      AppendKeepsLine(f, g, USER_LINE);
      AppendKeepsLength(f, g, USER_LINE);
      if LineLength(f, USER_LINE) > 0 { AppendAnswers(Rest(f, USER_LINE), g, v); }
    }
  }

  /** What one record answers: its own name if the name has no colon, never the name as given if it has one. */
  lemma RecordAnswers(u: Bytes, p: Bytes, v: Bytes)
    requires Storable(u, p) && '\n' !in u && '\n' !in p
    ensures ':' !in u ==> Lookup(Record(u, p), v) == (if v == u then Some(p) else None)
    ensures ':' in u ==> Lookup(Record(u, p), u) == None
  {
    assert Record(u, p) == Record(u, p) + [];
    RecordReads(u, p, []);
    var line := u + [':'] + p;
    CStringIs(line);
    assert Lookup([], v) == None && Lookup([], u) == None;
    if ':' !in u {
      ColonAfter(u, p);
      assert line[|u| + 1..] == p;
    } else if Lookup(Record(u, p), u).Some? {
      FoundNamesAreClean(Record(u, p), u);
    }
  }

  /** No lookup ever gives a password with a newline. */
  lemma {:induction false} FoundPasswordsAreOneLine(f: Bytes, u: Bytes)
    requires Lookup(f, u).Some?
    ensures '\n' !in Lookup(f, u).value
    decreases |f|
  {
    var line := Line(f, USER_LINE);
    LineEnds(f, USER_LINE);
    CStringIs(line);
    if !(ParseUser(line).Some? && ParseUser(line).value.name == u) {
      FoundPasswordsAreOneLine(Rest(f, USER_LINE), u);
    }
  }

  /** A name and a password that one line can carry: no newline, and no colon in the name. */
  predicate OneLine(u: Bytes, p: Bytes) {
    ':' !in u && '\n' !in u && '\n' !in p
  }

  /** Registering any name not found, in any file of whole lines: afterwards the name yields its password if and only if
      one line can carry the two and no blank line stops the lookup; and for such names all other answers stay. */
  lemma RegisterThenLookup(f: Bytes, u: Bytes, p: Bytes)
    requires Terminated(f) && Storable(u, p) && Lookup(f, u).None?
    ensures Lookup(f + Record(u, p), u) == Some(p) <==> OneLine(u, p) && ReadsOn(f)
    ensures OneLine(u, p) ==> forall v :: v != u ==> Lookup(f + Record(u, p), v) == Lookup(f, v)
    ensures OneLine(u, p) ==> ReadsOn(f + Record(u, p)) == ReadsOn(f)
  {
    AppendAnswers(f, Record(u, p), u);
    if OneLine(u, p) {
      RecordAnswers(u, p, u);
      RecordReadsOn(u, p);
      forall v | v != u ensures Lookup(f + Record(u, p), v) == Lookup(f, v) {
        AppendAnswers(f, Record(u, p), v);
        RecordAnswers(u, p, v);
      }
    } else if Lookup(f + Record(u, p), u).Some? {
      FoundNamesAreClean(f + Record(u, p), u);
      FoundPasswordsAreOneLine(f + Record(u, p), u);
    }
  }

  lemma RecordReadsOn(u: Bytes, p: Bytes)
    requires Storable(u, p) && '\n' !in u && '\n' !in p
    ensures ReadsOn(Record(u, p))
  {
    assert Record(u, p) + [] == Record(u, p);
    RecordReads(u, p, []);
  }

  // ---------- histories of registrations ----------

  /** The users file after these registrations, one after the other, on an empty file; each is refused or appended. */
  function History(regs: seq<User>): Bytes {
    if regs == [] then []
    else
      var f, r := History(regs[..|regs| - 1]), regs[|regs| - 1];
      if Storable(r.name, r.password) && Lookup(f, r.name).None? then f + Record(r.name, r.password) else f
  }

  lemma {:induction false} HistoryIsTerminated(regs: seq<User>)
    ensures Terminated(History(regs))
  {
    if regs != [] { HistoryIsTerminated(regs[..|regs| - 1]); }
  }

  /** Histories without newlines never stop a lookup, whatever colons they hold. */
  lemma {:induction false} HistoryReadsOn(regs: seq<User>)
    requires forall r :: r in regs ==> '\n' !in r.name && '\n' !in r.password
    ensures ReadsOn(History(regs))
  {
    if regs != [] {
      var front, r := regs[..|regs| - 1], regs[|regs| - 1];
      assert regs == front + [r] && r in regs;
      HistoryReadsOn(front);
      HistoryIsTerminated(front);
      if Storable(r.name, r.password) {
        RecordReadsOn(r.name, r.password);
        AppendAnswers(History(front), Record(r.name, r.password), r.name);
      }
    }
  }

  /** In any history of registrations whatever, one more that is accepted: the same exact condition. */
  lemma RegisterInHistory(regs: seq<User>, u: Bytes, p: Bytes)
    requires Storable(u, p) && Lookup(History(regs), u).None?
    ensures Lookup(History(regs + [User(u, p)]), u) == Some(p) <==> OneLine(u, p) && ReadsOn(History(regs))
    ensures OneLine(u, p) ==> forall v :: v != u ==> Lookup(History(regs + [User(u, p)]), v) == Lookup(History(regs), v)
  {
    HistoryIsTerminated(regs);
    RegisterThenLookup(History(regs), u, p);
    assert (regs + [User(u, p)])[..|regs|] == regs;
  }

  /** Once something stops the lookups it stops them for ever: no later registration is found. */
  lemma StoppedForEver(f: Bytes, g: Bytes, v: Bytes)
    requires Terminated(f) && !ReadsOn(f)
    ensures Lookup(f + g, v) == Lookup(f, v) && !ReadsOn(f + g)
  {
    AppendAnswers(f, g, v);
  }

  lemma BlankLineStops(a: Bytes, rest: Bytes)
    requires '\n' !in a && |a| < USER_LINE && rest != [] && rest[0] == '\n'
    ensures !ReadsOn(a + ['\n'] + rest)
  {
    ReadBack(a, rest, USER_LINE);
    assert LineLength(rest, USER_LINE) == 0;
  }

  lemma RecordWithBlankLine(a: Bytes, b: Bytes, p: Bytes)
    ensures Record(a + ['\n', '\n'] + b, p) == a + ['\n'] + (['\n'] + (b + [':'] + p + ['\n']))
  {
  }

  /** One accepted name with a blank line in it, a + "\n\n" + b, is enough. */
  lemma BlankLineInName(f: Bytes, a: Bytes, b: Bytes, p: Bytes)
    requires Terminated(f) && Storable(a + ['\n', '\n'] + b, p) && '\n' !in a
    ensures !ReadsOn(f + Record(a + ['\n', '\n'] + b, p))
  {
    var u := a + ['\n', '\n'] + b;
    RecordWithBlankLine(a, b, p);
    BlankLineStops(a, ['\n'] + (b + [':'] + p + ['\n']));
    AppendAnswers(f, Record(u, p), u);
  }

  /** A name that ends in a newline is accepted, and leaves a line that registers the empty name. */
  lemma EmptyNameRegistered(f: Bytes, a: Bytes, p: Bytes)
    requires Terminated(f) && ReadsOn(f) && Lookup(f, []).None?
    requires Storable(a + ['\n'], p) && a != [] && ':' !in a && '\n' !in a && '\n' !in p
    ensures Lookup(f, a + ['\n']).None?
    ensures Lookup(f + Record(a + ['\n'], p), []) == Some(p)
  {
    assert (a + ['\n'])[|a|] == '\n';
    if Lookup(f, a + ['\n']).Some? { FoundNamesAreClean(f, a + ['\n']); }
    AppendAnswers(f, Record(a + ['\n'], p), []);
    NamelessLine(a, p);
  }

  lemma NamelessLine(a: Bytes, p: Bytes)
    requires Storable(a + ['\n'], p) && a != [] && ':' !in a && '\n' !in a && '\n' !in p
    ensures Lookup(Record(a + ['\n'], p), []) == Some(p)
  {
    var second := [':'] + p;
    assert Record(a + ['\n'], p) == a + ['\n'] + (second + ['\n'] + []);
    ReadBack(a, second + ['\n'] + [], USER_LINE);
    ReadBack(second, [], USER_LINE);
    CStringIs(a);
    CStringIs(second);
    ColonIsFirst(a);
    assert ParseUser(a) == None;
    assert second[..0] == [] && second[1..] == p;
    assert ParseUser(second) == Some(User([], p));
  }
}
