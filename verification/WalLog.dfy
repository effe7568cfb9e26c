/** The text of the write-ahead log: writing it and reading it back. */
module WalLog {
  import opened Options
  import opened Rows
  import opened WalTable

  /** A committed operation; a deletion is logged without a value. */
  datatype Commit = Commit(time: string, name: string, key: string, value: Option<string>)

  const NULL: string := "NULL"

  function Logged(v: Option<string>): string {
    if v.None? then NULL else v.value
  }

  /** What `writeToWal` appends. */
  function Line(c: Commit): string {
    "[" + c.time + "] " + c.name + " " + c.key + " " + Logged(c.value) + "\n"
  }

  function Log(cs: seq<Commit>): string {
    if cs == [] then "" else Log(cs[..|cs| - 1]) + Line(cs[|cs| - 1])
  }

  // ---------------------------------------------------------------- reading, as the format of `fscanf` says

  predicate Blank(c: char) {
    c == ' ' || c == '\t' || c == '\n' || c == '\r' || c == 11 as char || c == 12 as char
  }

  /** A blank in the format skips any number of blanks. */
  function Skip(s: string): (r: string)
    ensures |r| <= |s|
  {
    if s != "" && Blank(s[0]) then Skip(s[1..]) else s
  }

  /** The characters up to the first blank. */
  function Word(s: string): (w: string)
    ensures w <= s
  {
    if s == "" || Blank(s[0]) then "" else [s[0]] + Word(s[1..])
  }

  /** The characters up to the first closing bracket. */
  function Bracketed(s: string): (w: string)
    ensures w <= s
  {
    if s == "" || s[0] == ']' then "" else [s[0]] + Bracketed(s[1..])
  }

  datatype Scan<+T> = Fail | Got(item: T, rest: string)

  /** Blanks, then a non-empty word. */
  function ScanWord(s: string): (r: Scan<string>)
    ensures r.Got? ==> |r.rest| < |s|
  {
    var t := Skip(s);
    var w := Word(t);
    if w == "" then Fail else Got(w, t[|w|..])
  }

  /** An opening bracket, a non-empty text without closing bracket, and the closing bracket. */
  function ScanTime(s: string): (r: Scan<string>)
    ensures r.Got? ==> |r.rest| < |s|
  {
    if s == "" || s[0] != '[' then Fail
    else
      var w := Bracketed(s[1..]);
      var rest := s[1 + |w|..];
      if w == "" || rest == "" then Fail else Got(w, rest[1..])
  }

  /** One line of the log; the operation is applied with an empty value where the log has NULL. */
  function ScanLine(s: string): (r: Scan<Op>)
    ensures r.Got? ==> |r.rest| < |s|
  {
    match ScanTime(s)
    case Fail => Fail
    case Got(_, s1) =>
      match ScanWord(s1)
      case Fail => Fail
      case Got(name, s2) =>
        match ScanWord(s2)
        case Fail => Fail
        case Got(key, s3) =>
          match ScanWord(s3)
          case Fail => Fail
          case Got(text, s4) => Got(Op(name, key, if text == NULL then "" else text), Skip(s4))
  }

  /** All operations up to the first line that cannot be read. */
  function ReadLog(s: string): seq<Op>
    decreases |s|
  {
    match ScanLine(s)
    case Fail => []
    case Got(op, rest) => [op] + ReadLog(rest)
  }

  // ---------------------------------------------------------------- the round trip

  predicate Token(s: string) {
    s != "" && forall i :: 0 <= i < |s| ==> !Blank(s[i])
  }

  predicate Stamp(s: string) {
    s != "" && forall i :: 0 <= i < |s| ==> s[i] != ']'
  }

  predicate Writable(c: Commit) {
    Stamp(c.time) && Token(c.name) && Token(c.key) && (c.value.Some? ==> Token(c.value.value))
  }

  /** What is read back from a logged operation. */
  function ReadBack(c: Commit): Op {
    Op(c.name, c.key, if Logged(c.value) == NULL then "" else Logged(c.value))
  }

  function AllRead(cs: seq<Commit>): seq<Op> {
    seq(|cs|, i requires 0 <= i < |cs| => ReadBack(cs[i]))
  }

  lemma {:induction false} WordIs(w: string, rest: string)
    requires (forall i :: 0 <= i < |w| ==> !Blank(w[i])) && (rest == "" || Blank(rest[0]))
    ensures Word(w + rest) == w
  {
    if w == "" {
      assert w + rest == rest;
    } else {
      assert (w + rest)[1..] == w[1..] + rest;
      WordIs(w[1..], rest);
    }
  }

  lemma {:induction false} BracketedIs(w: string, rest: string)
    requires (forall i :: 0 <= i < |w| ==> w[i] != ']') && rest != "" && rest[0] == ']'
    ensures Bracketed(w + rest) == w
  {
    if w == "" {
      assert w + rest == rest;
    } else {
      assert (w + rest)[1..] == w[1..] + rest;
      BracketedIs(w[1..], rest);
    }
  }

  lemma ScanToken(w: string, rest: string)
    requires Token(w) && rest != "" && Blank(rest[0])
    ensures ScanWord(" " + w + rest) == Got(w, rest)
  {
    var s := " " + w + rest;
    assert s[1..] == w + rest;
    assert Skip(s) == Skip(w + rest) == w + rest;
    WordIs(w, rest);
  }

  lemma ScanStamp(w: string, rest: string)
    requires Stamp(w)
    ensures ScanTime("[" + w + "]" + rest) == Got(w, rest)
  {
    var s := "[" + w + "]" + rest;
    assert s[1..] == w + ("]" + rest);
    BracketedIs(w, "]" + rest);
    assert s[1 + |w|..] == "]" + rest;
    assert ("]" + rest)[1..] == rest;
  }

  /** Nothing to skip before the next line or the end. */
  predicate Starts(s: string) {
    s == "" || s[0] == '['
  }

  lemma LineShape(c: Commit, rest: string)
    ensures Line(c) + rest ==
            "[" + c.time + "]" + (" " + c.name + (" " + c.key + (" " + Logged(c.value) + ("\n" + rest))))
  { }

  lemma LineReads(c: Commit, rest: string)
    requires Writable(c) && Starts(rest)
    ensures ScanLine(Line(c) + rest) == Got(ReadBack(c), rest)
  {
    var s4 := "\n" + rest;
    var s3 := " " + Logged(c.value) + s4;
    var s2 := " " + c.key + s3;
    var s1 := " " + c.name + s2;
    LineShape(c, rest);
    ScanStamp(c.time, s1);
    ScanToken(c.name, s2);
    ScanToken(c.key, s3);
    ScanToken(Logged(c.value), s4);
    SkipEnd(rest);
    ScanFields(Line(c) + rest, s1, s2, s3, s4, c, rest);
  }

  lemma SkipEnd(rest: string)
    requires Starts(rest)
    ensures Skip("\n" + rest) == rest
  {
    assert ("\n" + rest)[1..] == rest;
  }

  lemma ScanFields(s: string, s1: string, s2: string, s3: string, s4: string, c: Commit, rest: string)
    requires ScanTime(s) == Got(c.time, s1) && ScanWord(s1) == Got(c.name, s2) && ScanWord(s2) == Got(c.key, s3)
    requires ScanWord(s3) == Got(Logged(c.value), s4) && Skip(s4) == rest
    ensures ScanLine(s) == Got(ReadBack(c), rest)
  { }

  /** The log from its second line on. */
  lemma {:induction false} LogFirst(cs: seq<Commit>)
    requires cs != []
    ensures Log(cs) == Line(cs[0]) + Log(cs[1..])
  {
    var n := |cs| - 1;
    if n > 0 {
      LogFirst(cs[..n]);
      assert cs[1..][..n - 1] == cs[..n][1..];
      Shift(Line(cs[0]), Log(cs[..n][1..]), Line(cs[n]));
    } else {
      assert cs[1..] == [] && cs[..0] == [];
    }
  }

  lemma ReadFirst(c: Commit, rest: string)
    requires Writable(c) && Starts(rest)
    ensures ReadLog(Line(c) + rest) == [ReadBack(c)] + ReadLog(rest) && Starts(Line(c) + rest)
  {
    LineReads(c, rest);
    assert (Line(c) + rest)[0] == '[';
  }

  lemma AllReadFirst(cs: seq<Commit>)
    requires cs != []
    ensures AllRead(cs) == [ReadBack(cs[0])] + AllRead(cs[1..])
  { }

  /** Reading the log gives back every operation written, in order. */
  lemma {:induction false} ReadsBack(cs: seq<Commit>)
    requires forall i :: 0 <= i < |cs| ==> Writable(cs[i])
    ensures ReadLog(Log(cs)) == AllRead(cs) && Starts(Log(cs))
  {
    if cs != [] {
      ReadsBack(cs[1..]);
      LogFirst(cs);
      ReadFirst(cs[0], Log(cs[1..]));
      AllReadFirst(cs);
    }
  }

  // ---------------------------------------------------------------- committing and replaying

  /** `strcpy` takes the value of an insertion or an update, so there has to be one. */
  predicate Valued(c: Commit) {
    c.name == "INSERT" || c.name == "UPDATE" ==> c.value.Some?
  }

  /** The operation a commit applies to the table; a deletion does not look at its value. */
  function Live(c: Commit): Op {
    Op(c.name, c.key, if c.value.Some? then c.value.value else "")
  }

  function AllLive(cs: seq<Commit>): seq<Op> {
    seq(|cs|, i requires 0 <= i < |cs| => Live(cs[i]))
  }

  lemma LiveFront(cs: seq<Commit>, n: nat)
    requires n < |cs|
    ensures AllLive(cs)[..n] == AllLive(cs[..n]) && AllLive(cs)[n] == Live(cs[n])
  { }

  lemma ReadFront(cs: seq<Commit>, n: nat)
    requires n < |cs|
    ensures AllRead(cs)[..n] == AllRead(cs[..n]) && AllRead(cs)[n] == ReadBack(cs[n])
  { }

  lemma LiveOne(cs: seq<Commit>, c: Commit)
    ensures AllLive(cs + [c]) == AllLive(cs) + [Live(c)]
  { }

  lemma LogOne(cs: seq<Commit>, c: Commit)
    ensures Log(cs + [c]) == Log(cs) + Line(c)
  {
    assert (cs + [c])[..|cs|] == cs;
  }

  /** The table of a program that started on the log of `past` and has committed `cs` since. */
  function TableOf(past: seq<Commit>, cs: seq<Commit>, max: nat): Table {
    Replayed(AllLive(cs), Replayed(ReadLog(Log(past)), [], max), max)
  }

  /** The log file and the table of such a program. */
  ghost predicate InStep(past: seq<Commit>, cs: seq<Commit>, wal: string, db: Table, max: nat) {
    wal == Log(past + cs) && db == TableOf(past, cs, max)
  }

  lemma InStepOne(past: seq<Commit>, cs: seq<Commit>, c: Commit, wal: string, db: Table, max: nat)
    requires InStep(past, cs, wal, db, max)
    ensures InStep(past, cs + [c], wal + Line(c), Applied(db, Live(c), max), max)
  {
    LogOne(past + cs, c);
    assert past + (cs + [c]) == (past + cs) + [c];
    LiveOne(cs, c);
    ReplayedOne(AllLive(cs), Live(c), Replayed(ReadLog(Log(past)), [], max), max);
  }

  /** Logging comes before applying; a log and a table that are in step stay so, with one commit more. */
  method CommitOperation(store: Store, wal: string, c: Commit) returns (wal': string)
    requires Valued(c)
    modifies store
    ensures wal' == wal + Line(c) && store.db == Applied(old(store.db), Live(c), store.max)
    ensures forall past, cs :: InStep(past, cs, wal, old(store.db), store.max) ==>
              InStep(past, cs + [c], wal', store.db, store.max)
  {
    forall past, cs | InStep(past, cs, wal, store.db, store.max)
      ensures InStep(past, cs + [c], wal + Line(c), Applied(store.db, Live(c), store.max), store.max)
    {
      InStepOne(past, cs, c, wal, store.db, store.max);
    }
    wal' := wal + Line(c);
    store.Apply(Live(c));
  }

  lemma PrefixOne(cs: seq<Commit>, i: nat)
    requires i < |cs|
    ensures cs[..i + 1] == cs[..i] + [cs[i]]
  { }

  lemma PrefixAll(cs: seq<Commit>)
    ensures cs[..|cs|] == cs
  { }

  lemma InStepStart(past: seq<Commit>, cs: seq<Commit>, wal: string, db: Table, max: nat)
    requires wal == Log(past) && db == Replayed(ReadLog(wal), [], max)
    ensures InStep(past, cs[..0], wal, db, max)
  {
    assert past + cs[..0] == past && AllLive(cs[..0]) == [];
  }

  /** A run of the program: it replays the log it finds and goes on committing. */
  method Session(wal: string, cs: seq<Commit>, max: nat, ghost past: seq<Commit>) returns (store: Store, wal': string)
    requires wal == Log(past) && forall i :: 0 <= i < |cs| ==> Valued(cs[i])
    ensures fresh(store) && store.max == max && InStep(past, cs, wal', store.db, max)
  {
    store := new Store(max);
    Replay(store, wal);
    wal' := wal;
    InStepStart(past, cs, wal, store.db, max);
    for i := 0 to |cs|
      invariant fresh(store) && store.max == max && InStep(past, cs[..i], wal', store.db, max)
    {
      wal' := CommitOperation(store, wal', cs[i]);
      assert InStep(past, cs[..i] + [cs[i]], wal', store.db, max);
      PrefixOne(cs, i);
    }
    PrefixAll(cs);
  }

  /** The reading loop applies the lines one by one, up to the first that cannot be read. */
  method Replay(store: Store, wal: string)
    modifies store
    ensures store.db == Replayed(ReadLog(wal), old(store.db), store.max)
  {
    ghost var start, done: seq<Op> := store.db, [];
    var rest, scan := wal, ScanLine(wal);
    ReadNone(wal);
    while scan.Got?
      invariant scan == ScanLine(rest) && Read(wal, done, rest)
      invariant store.db == Replayed(done, start, store.max)
      decreases |rest|
    {
      ReadOne(wal, done, rest, scan.item, scan.rest);
      ReplayedOne(done, scan.item, start, store.max);
      store.Apply(scan.item);
      done, rest := done + [scan.item], scan.rest;
      scan := ScanLine(rest);
    }
    ReadAll(wal, done, rest);
  }

  /** The operations `done` have been read from the log, and `rest` is left. */
  ghost predicate Read(wal: string, done: seq<Op>, rest: string) {
    ReadLog(wal) == done + ReadLog(rest)
  }

  lemma ReadNone(wal: string)
    ensures Read(wal, [], wal)
  { }

  lemma ReadOne(wal: string, done: seq<Op>, rest: string, op: Op, rest': string)
    requires Read(wal, done, rest) && ScanLine(rest) == Got(op, rest')
    ensures Read(wal, done + [op], rest')
  {
    Shift(done, [op], ReadLog(rest'));
  }

  lemma ReadAll(wal: string, done: seq<Op>, rest: string)
    requires ReadLog(wal) == done + ReadLog(rest) && ScanLine(rest).Fail?
    ensures ReadLog(wal) == done
  {
    assert ReadLog(rest) == [];
  }

  // ---------------------------------------------------------------- recovery

  /** What the log makes of a table: it cannot tell the text NULL from a missing value. */
  function Blank1(r: Record): Record {
    if r.value == NULL then Record(r.key, "", r.valid) else r
  }

  function Blanked(db: Table): Table {
    seq(|db|, i requires 0 <= i < |db| => Blank1(db[i]))
  }

  ghost predicate HasNull(db: Table) {
    exists i :: 0 <= i < |db| && db[i].value == NULL
  }

  lemma BlankedFind(db: Table, key: string)
    ensures Find(Blanked(db), key) == Find(db, key)
  {
    var i, j := Find(db, key), Find(Blanked(db), key);
    if i >= 0 { assert Blanked(db)[i].key == key; }
    if j >= 0 { assert db[j].key == key; }
  }

  lemma BlankedStep(db: Table, c: Commit, max: nat)
    ensures Applied(Blanked(db), ReadBack(c), max) == Blanked(Applied(db, Live(c), max))
  {
    BlankedFind(db, c.key);
  }

  /** The replayed table is the live one with every value NULL made empty. */
  lemma {:induction false} ReplayBlanks(cs: seq<Commit>, max: nat)
    ensures Replayed(AllRead(cs), [], max) == Blanked(Replayed(AllLive(cs), [], max))
  {
    if cs != [] {
      var n := |cs| - 1;
      ReplayBlanks(cs[..n], max);
      ReadFront(cs, n);
      LiveFront(cs, n);
      BlankedStep(Replayed(AllLive(cs[..n]), [], max), cs[n], max);
    }
  }

  lemma BlankedIff(db: Table)
    ensures Blanked(db) == db <==> !HasNull(db)
  {
    if i :| 0 <= i < |db| && db[i].value == NULL {
      assert Blanked(db)[i] != db[i];
    }
  }

  /** After a restart the replay rebuilds the table of the commits exactly when no record there has the value NULL. */
  lemma RecoversIff(cs: seq<Commit>, max: nat)
    requires forall i :: 0 <= i < |cs| ==> Writable(cs[i]) && Valued(cs[i])
    ensures Replayed(ReadLog(Log(cs)), [], max) == Blanked(Replayed(AllLive(cs), [], max))
    ensures Replayed(ReadLog(Log(cs)), [], max) == Replayed(AllLive(cs), [], max) <==>
              !HasNull(Replayed(AllLive(cs), [], max))
  {
    ReadsBack(cs);
    ReplayBlanks(cs, max);
    BlankedIff(Replayed(AllLive(cs), [], max));
  }

  lemma BlankedTwice(db: Table)
    ensures Blanked(Blanked(db)) == Blanked(db)
  { }

  lemma BlankedFrom(a: Table, b: Table, op: Op, max: nat)
    requires Blanked(a) == Blanked(b)
    ensures Blanked(Applied(a, op, max)) == Blanked(Applied(b, op, max))
  {
    BlankedFind(a, op.key);
    BlankedFind(b, op.key);
    assert |a| == |b| by { assert |Blanked(a)| == |Blanked(b)|; }
    forall i | 0 <= i < |a| ensures Blank1(a[i]) == Blank1(b[i]) { assert Blanked(a)[i] == Blanked(b)[i]; }
  }

  /** What the log makes of a start does not show in what the log makes of the end. */
  lemma {:induction false} BlankedRun(ops: seq<Op>, a: Table, b: Table, max: nat)
    requires Blanked(a) == Blanked(b)
    ensures Blanked(Replayed(ops, a, max)) == Blanked(Replayed(ops, b, max))
    decreases |ops|
  {
    if ops != [] {
      var n := |ops| - 1;
      BlankedRun(ops[..n], a, b, max);
      BlankedFrom(Replayed(ops[..n], a, max), Replayed(ops[..n], b, max), ops[n], max);
    }
  }

  lemma LiveJoin(a: seq<Commit>, b: seq<Commit>)
    ensures AllLive(a + b) == AllLive(a) + AllLive(b)
  { }

  /** A restart in any later run as well rebuilds the table exactly when no record there has the value NULL. */
  lemma RestartIff(past: seq<Commit>, cs: seq<Commit>, wal: string, db: Table, max: nat)
    requires InStep(past, cs, wal, db, max)
    requires (forall i :: 0 <= i < |past| ==> Writable(past[i]) && Valued(past[i]))
             && forall i :: 0 <= i < |cs| ==> Writable(cs[i]) && Valued(cs[i])
    ensures Replayed(ReadLog(wal), [], max) == Blanked(db)
    ensures Replayed(ReadLog(wal), [], max) == db <==> !HasNull(db)
  {
    var first := Replayed(AllLive(past), [], max);
    RecoversIff(past + cs, max);
    LiveJoin(past, cs);
    ReplayGoesOn(AllLive(past), AllLive(cs), [], max);
    RecoversIff(past, max);
    BlankedTwice(first);
    BlankedRun(AllLive(cs), first, Blanked(first), max);
    BlankedIff(db);
  }

  /** One insertion of NULL is enough to lose a value. */
  lemma NullIsLost(time: string, key: string, max: nat)
    requires Stamp(time) && Token(key) && max > 0
    ensures var cs := [Commit(time, "INSERT", key, Some(NULL))];
            && Replayed(AllLive(cs), [], max) == [Record(key, NULL, true)]
            && Replayed(ReadLog(Log(cs)), [], max) == [Record(key, "", true)]
  {
    var c := Commit(time, "INSERT", key, Some(NULL));
    OneInserted(c, max);
    RecoversIff([c], max);
  }

  lemma OneInserted(c: Commit, max: nat)
    requires c.name == "INSERT" && max > 0
    ensures Replayed(AllLive([c]), [], max) == [Record(c.key, Live(c).value, true)]
  {
    ReplayedOne([], Live(c), [], max);
    assert AllLive([c]) == [] + [Live(c)];
  }

  /** Values that the log keeps apart from a missing one; a deletion may carry any. */
  predicate Kept(c: Commit) {
    c.name == "INSERT" || c.name == "UPDATE" ==> c.value != Some(NULL)
  }

  lemma KeptStep(db: Table, c: Commit, max: nat)
    requires Kept(c) && !HasNull(db)
    ensures !HasNull(Applied(db, Live(c), max))
  { }

  lemma {:induction false} KeptHasNoNull(cs: seq<Commit>, max: nat)
    requires forall i :: 0 <= i < |cs| ==> Kept(cs[i])
    ensures !HasNull(Replayed(AllLive(cs), [], max))
  {
    if cs != [] {
      var n := |cs| - 1;
      KeptHasNoNull(cs[..n], max);
      LiveFront(cs, n);
      KeptStep(Replayed(AllLive(cs[..n]), [], max), cs[n], max);
    }
  }

  /** So it does if no insertion and no update carries NULL, and then replaying again changes nothing. */
  lemma Recovers(cs: seq<Commit>, max: nat)
    requires forall i :: 0 <= i < |cs| ==> Writable(cs[i]) && Valued(cs[i]) && Kept(cs[i])
    ensures Replayed(ReadLog(Log(cs)), [], max) == Replayed(AllLive(cs), [], max)
    ensures Replayed(ReadLog(Log(cs)), Replayed(AllLive(cs), [], max), max) == Replayed(AllLive(cs), [], max)
  {
    KeptHasNoNull(cs, max);
    RecoversIff(cs, max);
    ReplayTwice(ReadLog(Log(cs)), max);
  }

  /** A crash after logging and before applying: the replay also applies that operation. */
  lemma RecoversCrash(cs: seq<Commit>, c: Commit, max: nat)
    requires (forall i :: 0 <= i < |cs| ==> Writable(cs[i]) && Valued(cs[i])) && Writable(c) && Valued(c)
    ensures Replayed(ReadLog(Log(cs + [c])), [], max) == Blanked(Applied(Replayed(AllLive(cs), [], max), Live(c), max))
  {
    RecoversIff(cs + [c], max);
    LiveOne(cs, c);
    ReplayedOne(AllLive(cs), Live(c), [], max);
  }

  // ---------------------------------------------------------------- what is printed

  /** The lines of the summary: keys and values of the valid records. */
  function Summary(db: Table): seq<(string, string)> {
    if db == [] then []
    else Summary(db[..|db| - 1]) + if db[|db| - 1].valid then [(db[|db| - 1].key, db[|db| - 1].value)] else []
  }

  lemma {:induction false} SummaryBlanked(db: Table)
    ensures |Summary(Blanked(db))| == |Summary(db)|
    ensures Summary(Blanked(db)) == Summary(db) <==> forall i :: 0 <= i < |db| && db[i].valid ==> db[i].value != NULL
  {
    if db != [] {
      var n := |db| - 1;
      SummaryBlanked(db[..n]);
      assert Blanked(db)[..n] == Blanked(db[..n]);
      assert forall i :: 0 <= i < n ==> db[..n][i] == db[i];
      LastLine(Summary(Blanked(db[..n])), Summary(db[..n]), Blank1(db[n]), db[n]);
    }
  }

  lemma LastLine(a: seq<(string, string)>, b: seq<(string, string)>, r: Record, q: Record)
    requires |a| == |b| && r == Blank1(q)
    ensures (a + if r.valid then [(r.key, r.value)] else []) == (b + if q.valid then [(q.key, q.value)] else [])
            <==> a == b && (q.valid ==> q.value != NULL)
  {
    var x, y := a + (if r.valid then [(r.key, r.value)] else []), b + (if q.valid then [(q.key, q.value)] else []);
    assert a == x[..|a|] && b == y[..|b|];
    if q.valid { assert x[|a|] == (r.key, r.value) && y[|a|] == (q.key, q.value); }
  }

  /** The summary printed after a restart is the one printed before exactly when no valid record has the value NULL. */
  lemma SummaryRecoversIff(cs: seq<Commit>, max: nat)
    requires forall i :: 0 <= i < |cs| ==> Writable(cs[i]) && Valued(cs[i])
    ensures var live := Replayed(AllLive(cs), [], max);
            Summary(Replayed(ReadLog(Log(cs)), [], max)) == Summary(live)
            <==> forall i :: 0 <= i < |live| && live[i].valid ==> live[i].value != NULL
  {
    RecoversIff(cs, max);
    SummaryBlanked(Replayed(AllLive(cs), [], max));
  }
}
