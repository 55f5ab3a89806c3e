/** The agent's append-only command journal (internal/agent/journal.go). */
module CommandJournal {
  import opened Common

  /** A terminal command update; its content is opaque here. */
  datatype Update = Update(id: string, succeeded: bool, payload: nat)

  datatype RecordState = Accepted | Succeeded | Failed | Acked

  datatype Record = Record(id: string, kind: string, state: RecordState, updated: nat, update: Option<Update>) {
    predicate Terminal() {
      state == Succeeded || state == Failed
    }
  }

  type Records = map<string, Record>

  /** A byte of the file: the k-th byte of a record's JSON text, or a line end. The text
      of a record has no line end in it and no proper prefix of it is a record. */
  datatype Byte = Text(record: Record, k: nat) | LineEnd

  function TextLength(r: Record): nat {
    2 + |r.id|
  }

  function Encode(r: Record): (s: seq<Byte>)
    ensures |s| == TextLength(r)
    ensures forall k :: 0 <= k < |s| ==> s[k] == Text(r, k)
  {
    seq(TextLength(r), (k: nat) => Text(r, k))
  }

  function Line(r: Record): seq<Byte> {
    Encode(r) + [LineEnd]
  }

  function Decode(s: seq<Byte>): Option<Record> {
    if s != [] && s[0].Text? && s == Encode(s[0].record) then Some(s[0].record) else None
  }

  /** A line that is not a record, or has no command ID, is skipped. */
  function Apply(m: Records, line: seq<Byte>): Records {
    match Decode(line)
    case Some(r) => if r.id != "" then m[r.id := r] else m
    case None => m
  }

  /** The scanner loop of OpenJournal: `cur` is the line read so far. */
  function Scan(file: seq<Byte>, cur: seq<Byte>, m: Records): Records {
    if file == [] then (if cur == [] then m else Apply(m, cur))
    else if file[0].LineEnd? then Scan(file[1..], [], Apply(m, cur))
    else Scan(file[1..], cur + [file[0]], m)
  }

  function Replay(file: seq<Byte>): Records {
    Scan(file, [], map[])
  }

  predicate Terminated(file: seq<Byte>) {
    file == [] || file[|file| - 1].LineEnd?
  }

  /** The file up to its last line end. */
  function Head(file: seq<Byte>): (h: seq<Byte>)
    ensures h <= file && Terminated(h)
    ensures forall k :: |h| <= k < |file| ==> !file[k].LineEnd?
  {
    if Terminated(file) then file else Head(file[..|file| - 1])
  }

  function LineCount(file: seq<Byte>): nat {
    if file == [] then 0
    else LineCount(file[..|file| - 1]) + if file[|file| - 1].LineEnd? then 1 else 0
  }

  // ---- Replay of an append --------------------------------------------------

  lemma {:induction false} ScanText(w: seq<Byte>, rest: seq<Byte>, cur: seq<Byte>, m: Records)
    requires forall k :: 0 <= k < |w| ==> !w[k].LineEnd?
    ensures Scan(w + rest, cur, m) == Scan(rest, cur + w, m)
  {
    if w == [] {
      assert w + rest == rest && cur + w == cur;
    } else {
      assert (w + rest)[1..] == w[1..] + rest;
      assert cur + [w[0]] + w[1..] == cur + w;
      ScanText(w[1..], rest, cur + [w[0]], m);
    }
  }

  lemma {:induction false} ScanHead(f: seq<Byte>, g: seq<Byte>, cur: seq<Byte>, m: Records)
    requires Terminated(f) && (f == [] ==> cur == [])
    ensures Scan(f + g, cur, m) == Scan(g, [], Scan(f, cur, m))
    decreases f
  {
    if f == [] {
      assert f + g == g;
    } else {
      assert (f + g)[1..] == f[1..] + g;
      if f[0].LineEnd? {
        ScanHead(f[1..], g, [], Apply(m, cur));
      } else {
        assert f[1..] != [] && f[1..][|f| - 2] == f[|f| - 1];
        ScanHead(f[1..], g, cur + [f[0]], m);
      }
    }
  }

  /** A record's line appended to a file with a torn tail is unreadable. */
  lemma GluedLine(tail: seq<Byte>, r: Record)
    requires tail != []
    ensures Decode(tail + Encode(r)) == None
  {
    var s := tail + Encode(r);
    assert s[0] == tail[0] && s[|tail|] == Text(r, 0);
    if s[0].Text? {
      assert |tail| < TextLength(s[0].record) ==> Encode(s[0].record)[|tail|] == Text(s[0].record, |tail|);
    }
  }

  /** A complete line is read back if and only if the file ended in a line end before;
      otherwise it and the torn tail leave no trace. */
  lemma ReplayAppend(file: seq<Byte>, r: Record)
    ensures Replay(file + Line(r)) ==
            if !Terminated(file) then Replay(Head(file))
            else if r.id == "" then Replay(file)
            else Replay(file)[r.id := r]
  {
    var head := Head(file);
    var tail := file[|head|..];
    var text := tail + Encode(r);
    assert file + Line(r) == head + (text + [LineEnd]);
    ScanHead(head, text + [LineEnd], [], map[]);
    ScanText(text, [LineEnd], [], Replay(head));
    assert [] + text == text;
    assert [LineEnd][1..] == [];
    assert Replay(file + Line(r)) == Apply(Replay(head), text);
    if Terminated(file) {
      assert head == file && tail == [] && text == Encode(r);
    } else {
      GluedLine(tail, r);
    }
  }

  /** However much of a line reached the file, the map read back is the one before or
      the one after the write. */
  lemma ReplayTorn(file: seq<Byte>, r: Record, n: nat)
    requires Terminated(file) && n <= |Line(r)|
    ensures
      var after := Replay(file + Line(r)[..n]);
      after == Replay(file) || (r.id != "" && n >= TextLength(r) && after == Replay(file)[r.id := r])
  {
    if n == |Line(r)| {
      assert Line(r)[..n] == Line(r);
      ReplayAppend(file, r);
    } else {
      var w := Line(r)[..n];
      ScanHead(file, w, [], map[]);
      assert forall k :: 0 <= k < |w| ==> w[k] == Text(r, k);
      ScanText(w, [], [], Replay(file));
      assert w + [] == w && [] + w == w;
    }
  }

  lemma {:induction false} LineCountAppend(file: seq<Byte>, r: Record, n: nat)
    requires n <= TextLength(r)
    ensures LineCount(file + Encode(r)[..n]) == LineCount(file)
  {
    if n == 0 {
      assert file + Encode(r)[..n] == file;
    } else {
      assert (file + Encode(r)[..n])[..|file| + n - 1] == file + Encode(r)[..n - 1];
      LineCountAppend(file, r, n - 1);
    }
  }

  lemma LineCountLine(file: seq<Byte>, r: Record)
    ensures LineCount(file + Line(r)) == LineCount(file) + 1
  {
    LineCountAppend(file, r, TextLength(r));
    assert Encode(r)[..TextLength(r)] == Encode(r);
    assert (file + Line(r))[..|file + Line(r)| - 1] == file + Encode(r);
  }

  // ---- What survives a crash ------------------------------------------------

  /** The records no later append can take back. */
  function Durable(file: seq<Byte>): Records {
    Replay(Head(file))
  }

  /** A complete record at the end of the file that lacks only its line end. */
  function Tail(file: seq<Byte>): Option<Record> {
    var r := Decode(file[|Head(file)|..]);
    if r.Some? && r.value.id == "" then None else r
  }

  function Recovered(disk: Records, tail: Option<Record>): Records {
    if tail.Some? then disk[tail.value.id := tail.value] else disk
  }

  lemma ReplayIsRecovered(file: seq<Byte>)
    ensures Replay(file) == Recovered(Durable(file), Tail(file))
  {
    var head := Head(file);
    var tail := file[|head|..];
    assert file == head + tail;
    ScanHead(head, tail, [], map[]);
    ScanText(tail, [], [], Replay(head));
    assert tail + [] == tail && [] + tail == tail;
  }

  /** What a write of r, complete or not, may do to the durable records and the tail. */
  ghost predicate WriteEffect(disk: Records, tail: Option<Record>, r: Record, mem: Records,
                              disk': Records, tail': Option<Record>) {
    || (disk' == disk && (tail' == tail || tail' == None || (r.id != "" && tail' == Some(r))))
    || (r.id != "" && disk' == disk[r.id := r] && tail' == None)
    || (disk' == mem - {""} && tail' == None)
  }

  lemma HeadText(file: seq<Byte>, w: seq<Byte>)
    requires forall k :: 0 <= k < |w| ==> !w[k].LineEnd?
    ensures Head(file + w) == Head(file)
    decreases |w|
  {
    if w == [] {
      assert file + w == file;
    } else {
      assert (file + w)[..|file + w| - 1] == file + w[..|w| - 1];
      HeadText(file, w[..|w| - 1]);
    }
  }

  /** Any part of a line appended to any file. */
  lemma AppendEffect(file: seq<Byte>, r: Record, n: nat, mem: Records)
    requires n <= |Line(r)|
    ensures
      var after := file + Line(r)[..n];
      WriteEffect(Durable(file), Tail(file), r, mem, Durable(after), Tail(after))
  {
    var after := file + Line(r)[..n];
    if n == |Line(r)| {
      assert Line(r)[..n] == Line(r) && Terminated(after);
      ReplayAppend(file, r);
      assert after[|Head(after)|..] == [];
    } else {
      var w := Line(r)[..n];
      assert w == Encode(r)[..n];
      HeadText(file, w);
      var tail := file[|Head(file)|..];
      assert after[|Head(after)|..] == tail + w;
      if tail == [] {
        assert tail + w == w;
      } else if n > 0 {
        assert (tail + w)[0] == tail[0] && (tail + w)[|tail|] == Text(r, 0);
        if tail[0].Text? && |tail| < TextLength(tail[0].record) {
          assert Encode(tail[0].record)[|tail|] == Text(tail[0].record, |tail|);
        }
      } else {
        assert tail + w == tail;
      }
    }
  }

  // ---- The journal ----------------------------------------------------------

  const KEEP_ACKED: nat := 24 * 3600

  /** What a restart keeps: acknowledged commands are dropped after 24 hours. */
  function Kept(m: Records, now: nat): Records {
    map i | i in m && !(m[i].state == Acked && now > m[i].updated + KEEP_ACKED) :: m[i]
  }

  /** The log refines the map: the file has n lines and replays to the records of m
      that have a command ID. */
  ghost predicate Refines(file: seq<Byte>, m: Records, n: nat) {
    Terminated(file) && Replay(file) == m - {""} && LineCount(file) == n
  }

  lemma RefinesAppend(file: seq<Byte>, m: Records, n: nat, r: Record)
    requires Refines(file, m, n)
    ensures Refines(file + Line(r), m[r.id := r], n + 1)
  {
    ReplayAppend(file, r);
    LineCountLine(file, r);
    SkipEmpty(m, r);
  }

  lemma SkipEmpty(m: Records, r: Record)
    ensures m[r.id := r] - {""} == if r.id == "" then m - {""} else (m - {""})[r.id := r]
  {
  }

  // ---- A file out of step -----------------------------------------------------

  /** Apart from r's own command the durable records are the ones in memory, and r itself is
      there already if its line has no line end before it. */
  ghost predicate AgreeBut(file: seq<Byte>, m: Records, r: Record) {
    && Durable(file) - {r.id} == m - {"", r.id}
    && (r.id != "" && !Terminated(file) ==> r.id in Durable(file) && Durable(file)[r.id] == r)
  }

  /** After a complete write of r to any file, reading gives exactly the records in memory if
      and only if file and memory agreed before on all other commands. */
  lemma InStepIff(file: seq<Byte>, m: Records, r: Record)
    ensures Replay(file + Line(r)) == m[r.id := r] - {""} <==> AgreeBut(file, m, r)
  {
    ReplayAppend(file, r);
    ReplayKeyed(Head(file), [], map[]);
    SkipEmpty(m, r);
    var d := Durable(file);
    if r.id == "" {
      assert d - {""} == d && m - {"", r.id} == m - {""};
    } else {
      UpdateIff(d, m - {""}, r);
      assert m - {""} - {r.id} == m - {"", r.id};
      if !Terminated(file) {
        SameIff(d, (m - {""})[r.id := r], r.id);
        assert (m - {""})[r.id := r] - {r.id} == m - {"", r.id};
      }
    }
  }

  lemma UpdateIff(a: Records, b: Records, r: Record)
    ensures a[r.id := r] == b[r.id := r] <==> a - {r.id} == b - {r.id}
  {
    assert a[r.id := r] - {r.id} == a - {r.id} && b[r.id := r] - {r.id} == b - {r.id};
    assert (a - {r.id})[r.id := r] == a[r.id := r] && (b - {r.id})[r.id := r] == b[r.id := r];
  }

  lemma SameIff(a: Records, b: Records, id: string)
    requires id in b
    ensures a == b <==> a - {id} == b - {id} && id in a && a[id] == b[id]
  {
    if a - {id} == b - {id} && id in a && a[id] == b[id] {
      assert a == (a - {id})[id := a[id]] && b == (b - {id})[id := b[id]];
    }
  }

  /** A write of a fails before a byte reaches the file; memory has a all the same. A write of
      another command then succeeds on a file that ends in a line end, and a is missing. */
  lemma FailedWriteLeavesGap(file: seq<Byte>, m: Records, n: nat, a: Record, b: Record)
    requires Refines(file, m, n) && a.id != "" && b.id != a.id && (a.id in m ==> m[a.id] != a)
    ensures Terminated(file + Line(b))
    ensures Replay(file + Line(b)) != m[a.id := a][b.id := b] - {""}
  {
    InStepIff(file, m[a.id := a], b);
    assert Durable(file) == m - {""};
    assert a.id in m[a.id := a] - {"", b.id} && (m[a.id := a] - {"", b.id})[a.id] == a;
    assert a.id in Durable(file) - {b.id} ==> (Durable(file) - {b.id})[a.id] == m[a.id];
  }

  /** The records of some commands. */
  ghost function Only(m: Records, ids: set<string>): Records {
    map i | i in m && i in ids :: m[i]
  }

  lemma RewriteNext(m: Records, done: set<string>, id: string, out: seq<Byte>)
    requires id in m && id !in done && m[id].id == id && Refines(out, Only(m, done), |done|)
    ensures Refines(out + Line(m[id]), Only(m, done + {id}), |done + {id}|)
  {
    RefinesAppend(out, Only(m, done), |done|, m[id]);
    assert Only(m, done)[id := m[id]] == Only(m, done + {id});
  }

  lemma RewriteNone(m: Records)
    ensures Refines([], Only(m, {}), 0)
  {
    assert Only(m, {}) == map[];
  }

  lemma RewriteAll(m: Records, done: set<string>, out: seq<Byte>)
    requires Refines(out, Only(m, done), |done|) && done == m.Keys
    ensures Refines(out, m, |m|)
  {
    assert Only(m, done) == m;
  }

  /** The log is mostly history. */
  predicate TooLong(lines: nat, records: nat) {
    lines > 1000 && lines > 4 * records
  }

  class Journal {
    var file: seq<Byte>
    var records: Records
    var lines: nat
    var open: bool
    var now: nat

    ghost predicate InStep()
      reads this`file, this`records, this`lines
    {
      Refines(file, records, lines)
    }

    ghost predicate Keyed()
      reads this`records
    {
      forall i :: i in records ==> records[i].id == i
    }

    ghost predicate Bounded()
      reads this`records, this`lines
    {
      !TooLong(lines, |records|)
    }

    /** Writes every record to a new file, in any order. */
    method Rewrite() returns (out: seq<Byte>)
      requires Keyed()
      ensures Refines(out, records, |records|)
    {
      out := [];
      var todo := records.Keys;
      ghost var done: set<string> := {};
      RewriteNone(records);
      while todo != {}
        invariant todo !! done && todo + done == records.Keys && Refines(out, Only(records, done), |done|)
        decreases todo
      {
        var id :| id in todo;
        RewriteNext(records, done, id, out);
        out := out + Line(records[id]);
        todo, done := todo - {id}, done + {id};
      }
      RewriteAll(records, done, out);
    }

    /** Replaces the file by a minimal one. */
    method Compact() returns (o: Outcome)
      requires Keyed()
      modifies this`file, this`lines, this`open
      ensures o.Ok? ==> InStep() && open && lines == |records|
      ensures file == old(file) || (Refines(file, records, |records|) && Durable(file) == records - {""} && Tail(file) == None)
      ensures o.Err? ==> (file == old(file) && lines == old(lines) && open == old(open)) || (InStep() && !open)
    {
      var out := Rewrite();
      o := *;
      var renamed: bool := *;
      if !renamed {
        if o.Ok? { o := Err; }
        return;
      }
      assert out[|Head(out)|..] == [];
      file := out;
      if o.Crash? { return; }
      lines := |records|;
      open := o.Ok?;
    }

    /** One write call: on an error any part of the line may have reached the file. */
    method Append(r: Record) returns (o: Outcome)
      modifies this`file
      ensures o.Ok? ==> file == old(file) + Line(r) && open
      ensures !o.Ok? && old(Terminated(file)) ==>
                Replay(file) == old(Replay(file)) || (r.id != "" && Replay(file) == old(Replay(file))[r.id := r])
      ensures WriteEffect(old(Durable(file)), old(Tail(file)), r, records, Durable(file), Tail(file))
    {
      if !open { return Err; }
      o := *;
      if o.Ok? {
        assert Line(r)[..|Line(r)|] == Line(r);
        AppendEffect(file, r, |Line(r)|, records);
        file := file + Line(r);
      } else {
        var n :| 0 <= n <= |Line(r)|;
        if Terminated(file) { ReplayTorn(file, r, n); }
        AppendEffect(file, r, n, records);
        file := file + Line(r)[..n];
      }
    }

    /** Puts a record into the map and appends its line. */
    method Put(r: Record) returns (o: Outcome)
      requires Keyed()
      modifies this`file, this`records, this`lines
      ensures records == old(records)[r.id := r] && Keyed()
      ensures o.Ok? ==> open && (old(InStep()) ==> InStep())
      ensures o.Ok? ==> file == old(file) + Line(r) && lines == old(lines) + 1
      ensures old(InStep()) ==> Replay(file) == old(records) - {""} || Replay(file) == records - {""}
      ensures WriteEffect(old(Durable(file)), old(Tail(file)), r, records, Durable(file), Tail(file))
    {
      records := records[r.id := r];
      SkipEmpty(old(records), r);
      o := Append(r);
      if o.Ok? {
        lines := lines + 1;
        if old(InStep()) {
          RefinesAppend(old(file), old(records), old(lines), r);
        }
      }
    }

    /** Appends one line and compacts when the log is mostly history. */
    method Write(r0: Record) returns (o: Outcome)
      requires Keyed()
      modifies this`file, this`records, this`lines, this`open
      ensures records == old(records)[r0.id := r0.(updated := now)] && Keyed()
      // a successful write on a file in step is durable, and the log stays short
      ensures o.Ok? && old(InStep()) ==> InStep()
      ensures o.Ok? ==> Bounded() && open
      // on any file, it reads back as memory exactly if it compacts or they agreed elsewhere
      ensures o.Ok? ==>
                (Replay(file) == records - {""} <==>
                 TooLong(old(lines) + 1, |records|) || AgreeBut(old(file), old(records), r0.(updated := now)))
      // without a compaction its line is read back unless the file had a torn tail
      ensures o.Ok? && !TooLong(old(lines) + 1, |records|) ==>
                Replay(file) == if old(Terminated(file)) && r0.id != "" then old(Replay(file))[r0.id := r0.(updated := now)]
                                else old(Durable(file))
      // a failed write reads back as the map before or after it
      ensures old(InStep()) ==> Replay(file) == old(records) - {""} || Replay(file) == records - {""}
      ensures WriteEffect(old(Durable(file)), old(Tail(file)), r0.(updated := now), records, Durable(file), Tail(file))
    {
      o := Put(r0.(updated := now));
      if o.Ok? {
        ReplayAppend(old(file), r0.(updated := now));
        InStepIff(old(file), old(records), r0.(updated := now));
        o := CompactIfLong();
      }
    }

    /** Compacts once the log has over 1000 lines and over four per record. */
    method CompactIfLong() returns (o: Outcome)
      requires Keyed() && open
      modifies this`file, this`lines, this`open
      ensures o.Ok? ==> Bounded() && open
      ensures o.Ok? ==> if TooLong(old(lines), |records|) then InStep() else file == old(file) && lines == old(lines)
      ensures file == old(file) || (Refines(file, records, |records|) && Durable(file) == records - {""} && Tail(file) == None)
    {
      o := Ok;
      if TooLong(lines, |records|) {
        o := Compact();
      }
    }

    /** Loads, drops what no longer needs to be kept, and compacts. */
    method Open() returns (o: Outcome)
      modifies this`file, this`records, this`lines, this`open
      ensures records == Kept(old(Replay(file)), now) && Keyed()
      ensures o.Ok? ==> InStep() && open && Bounded() && Durable(file) == records && Tail(file) == None
      ensures Replay(file) == old(Replay(file)) || Replay(file) == records
    {
      records := Kept(Replay(file), now);
      ReplayKeyed(file, [], map[]);
      assert "" !in records && records - {""} == records;
      o := Compact();
      assert o.Ok? ==> file[|Head(file)|..] == [];
    }

    /** Journals a new command before it starts. */
    method Accept(id: string, kind: string) returns (o: Outcome)
      requires Keyed()
      modifies this`file, this`records, this`lines, this`open
      ensures Keyed() && records == old(records)[id := Record(id, kind, Accepted, now, None)]
      ensures o.Ok? && old(InStep()) ==> InStep()
      ensures old(InStep()) ==> Replay(file) == old(records) - {""} || Replay(file) == records - {""}
      ensures WriteEffect(old(Durable(file)), old(Tail(file)), records[id], records, Durable(file), Tail(file))
    {
      o := Write(Record(id, kind, Accepted, now, None));
    }

    /** Journals a terminal update. */
    method Finish(u: Update, kind: string) returns (o: Outcome)
      requires Keyed()
      modifies this`file, this`records, this`lines, this`open
      ensures Keyed()
      ensures records == old(records)[u.id := Record(u.id, kind, if u.succeeded then Succeeded else Failed, now, Some(u))]
      ensures o.Ok? && old(InStep()) ==> InStep()
      ensures old(InStep()) ==> Replay(file) == old(records) - {""} || Replay(file) == records - {""}
      ensures WriteEffect(old(Durable(file)), old(Tail(file)), records[u.id], records, Durable(file), Tail(file))
    {
      o := Write(Record(u.id, kind, if u.succeeded then Succeeded else Failed, now, Some(u)));
    }

    /** Marks a terminal result as persisted by the gateway; the result stays. */
    method Ack(id: string) returns (o: Outcome)
      requires Keyed()
      modifies this`file, this`records, this`lines, this`open
      ensures Keyed()
      ensures id in old(records) && old(records)[id].Terminal() ==>
                records == old(records)[id := old(records)[id].(state := Acked, updated := now)]
      ensures !(id in old(records) && old(records)[id].Terminal()) ==> o.Ok? && records == old(records) && file == old(file)
      ensures o.Ok? && old(InStep()) ==> InStep()
      ensures old(InStep()) ==> Replay(file) == old(records) - {""} || Replay(file) == records - {""}
      ensures id in old(records) && old(records)[id].Terminal() ==>
                WriteEffect(old(Durable(file)), old(Tail(file)), records[id], records, Durable(file), Tail(file))
    {
      if id !in records || !records[id].Terminal() { return Ok; }
      o := Write(Record(id, records[id].kind, Acked, now, records[id].update));
    }

    /** The stored terminal update of a command, acknowledged or not. */
    method Result(id: string) returns (u: Option<Update>)
      ensures u == if id in records then records[id].update else None
    {
      u := if id in records then records[id].update else None;
    }

    /** The terminal updates the gateway has not acknowledged. */
    method Unacked() returns (us: set<Update>)
      ensures forall u :: u in us <==> exists i :: i in records && records[i].Terminal() && records[i].update == Some(u)
    {
      us := set i | i in records && records[i].Terminal() && records[i].update.Some? :: records[i].update.value;
    }
  }

  lemma {:induction false} ReplayKeyed(file: seq<Byte>, cur: seq<Byte>, m: Records)
    requires "" !in m && forall i :: i in m ==> m[i].id == i
    ensures "" !in Scan(file, cur, m) && forall i :: i in Scan(file, cur, m) ==> Scan(file, cur, m)[i].id == i
    decreases file
  {
    if file == [] {
    } else {
      if file[0].LineEnd? {
        ReplayKeyed(file[1..], [], Apply(m, cur));
      } else {
        ReplayKeyed(file[1..], cur + [file[0]], m);
      }
    }
  }
}
