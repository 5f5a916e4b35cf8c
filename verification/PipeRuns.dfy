/**
 * Many tasks calling one pipe. Blocking calls move one chunk per critical section, so the chunks of
 * different calls interleave; a call returns when its whole length has been moved.
 */
module PipeRuns {
  import opened Pipe

  type Tid = nat

  datatype Call =
    | Idle
    | Writing(data: seq<byte>, sent: nat)
    | Reading(len: nat, got: seq<byte>)

  datatype Who = Task(t: Tid) | Flushed

  /**
   * The pipe with the call each task is in. `added` and `removed` log every byte that entered and left
   * the buffer; `wrote` and `received` hold, per task, the bytes of the calls that have returned.
   */
  datatype System = System(
    capacity: nat, contents: seq<byte>, calls: map<Tid, Call>,
    added: seq<(Who, byte)>, removed: seq<(Who, byte)>,
    wrote: map<Tid, seq<byte>>, received: map<Tid, seq<byte>>)

  datatype Event =
    | BeginWrite(t: Tid, data: seq<byte>)
    | BeginRead(t: Tid, len: nat)
    | Chunk(t: Tid)
    | NbWrite(t: Tid, data: seq<byte>)
    | NbRead(t: Tid, len: nat)
    | Flush

  function Tag(w: Who, data: seq<byte>): seq<(Who, byte)> {
    seq(|data|, i requires 0 <= i < |data| => (w, data[i]))
  }

  function Bytes(log: seq<(Who, byte)>): seq<byte> {
    seq(|log|, i requires 0 <= i < |log| => log[i].1)
  }

  /** The bytes of a log that one task moved. */
  function Mine(log: seq<(Who, byte)>, t: Tid): seq<byte> {
    if log == [] then [] else
      var n := |log| - 1;
      Mine(log[..n], t) + if log[n].0 == Task(t) then [log[n].1] else []
  }

  /** `pipe_bulk_write` of `data` by task `t`. */
  function Put(s: System, t: Tid, data: seq<byte>): System
    requires |s.contents| <= s.capacity
  {
    var d := Fitting(data, s.capacity - |s.contents|);
    s.(contents := s.contents + d, added := s.added + Tag(Task(t), d))
  }

  /** `pipe_bulk_read` of up to `n` bytes by task `t`. */
  function Take(s: System, t: Tid, n: nat): System {
    var d := Fitting(s.contents, n);
    s.(contents := s.contents[|d|..], removed := s.removed + Tag(Task(t), d))
  }

  /** One turn of the loop of a blocking call; the call returns when nothing is left to move. */
  function Advance(s: System, t: Tid): System
    requires Shape(s) && t in s.calls
  {
    match s.calls[t]
    case Idle => s
    case Writing(data, sent) =>
      var s' := Put(s, t, data[sent..]);
      var n := sent + |s'.contents| - |s.contents|;
      if n == |data| then s'.(calls := s.calls[t := Idle], wrote := s.wrote[t := s.wrote[t] + data])
      else s'.(calls := s.calls[t := Writing(data, n)])
    case Reading(len, got) =>
      var g := got + s.contents[..Min(len - |got|, |s.contents|)];
      var s' := Take(s, t, len - |got|);
      if |g| == len then s'.(calls := s.calls[t := Idle], received := s.received[t := s.received[t] + g])
      else s'.(calls := s.calls[t := Reading(len, g)])
  }

  /** The length check that makes every entry point fail. */
  predicate Accepted(e: Event) {
    match e
    case BeginWrite(_, data) => data != []
    case NbWrite(_, data) => data != []
    case BeginRead(_, len) => len > 0
    case NbRead(_, len) => len > 0
    case _ => true
  }

  function Step(s: System, e: Event): System
    requires Shape(s) && Enabled(s, e)
  {
    if !Accepted(e) then s else
      match e
      case BeginWrite(t, data) => s.(calls := s.calls[t := Writing(data, 0)])
      case BeginRead(t, len) => s.(calls := s.calls[t := Reading(len, [])])
      case Chunk(t) => Advance(s, t)
      case NbWrite(t, data) =>
        var s' := Put(s, t, data);
        s'.(wrote := s.wrote[t := s.wrote[t] + data[..|s'.contents| - |s.contents|]])
      case NbRead(t, len) =>
        Take(s, t, len).(received := s.received[t := s.received[t] + s.contents[..Min(len, |s.contents|)]])
      case Flush => s.(contents := [], removed := s.removed + Tag(Flushed, s.contents))
  }

  /** A task in a blocking call makes no other call. */
  predicate Enabled(s: System, e: Event) {
    match e
    case Chunk(t) => t in s.calls
    case Flush => true
    case _ => e.t in s.calls && s.calls[e.t].Idle?
  }

  predicate Well(c: Call) {
    match c
    case Idle => true
    case Writing(data, sent) => sent < |data|
    case Reading(len, got) => |got| < len
  }

  /** What the code relies on to run. */
  predicate Shape(s: System) {
    && |s.contents| <= s.capacity && s.calls.Keys == s.wrote.Keys == s.received.Keys
    && forall t :: t in s.calls ==> Well(s.calls[t])
  }

  /** The bytes an unfinished call has moved so far. */
  function SentBy(c: Call): seq<byte>
    requires Well(c)
  {
    if c.Writing? then c.data[..c.sent] else []
  }

  function GotBy(c: Call): seq<byte> {
    if c.Reading? then c.got else []
  }

  ghost predicate TaskOk(s: System, t: Tid)
    requires t in s.calls && t in s.wrote && t in s.received
  {
    && Well(s.calls[t])
    && Mine(s.added, t) == s.wrote[t] + SentBy(s.calls[t])
    && Mine(s.removed, t) == s.received[t] + GotBy(s.calls[t])
  }

  /** Nothing lost, duplicated or reordered: overall and per task. */
  ghost predicate Inv(s: System) {
    && Shape(s)
    && Bytes(s.added) == Bytes(s.removed) + s.contents
    && forall t :: t in s.calls ==> TaskOk(s, t)
  }

  lemma InvFacts(s: System, t: Tid)
    requires Inv(s) && t in s.calls
    ensures Shape(s) && TaskOk(s, t) && Bytes(s.added) == Bytes(s.removed) + s.contents
  {
  }

  lemma {:induction false} MineConcat(a: seq<(Who, byte)>, b: seq<(Who, byte)>, t: Tid)
    ensures Mine(a + b, t) == Mine(a, t) + Mine(b, t)
    decreases |b|
  {
    if b == [] {
      assert a + b == a;
    } else {
      var n := |b| - 1;
      MineConcat(a, b[..n], t);
      assert (a + b)[..|a + b| - 1] == a + b[..n];
    }
  }

  lemma {:induction false} MineTag(w: Who, data: seq<byte>, t: Tid)
    ensures Mine(Tag(w, data), t) == if w == Task(t) then data else []
    decreases |data|
  {
    if data != [] {
      var n := |data| - 1;
      MineTag(w, data[..n], t);
      assert Tag(w, data)[..n] == Tag(w, data[..n]);
      assert data == data[..n] + [data[n]];
    }
  }

  lemma MineLogged(log: seq<(Who, byte)>, w: Who, data: seq<byte>, t: Tid)
    ensures Mine(log + Tag(w, data), t) == Mine(log, t) + if w == Task(t) then data else []
  {
    MineConcat(log, Tag(w, data), t);
    MineTag(w, data, t);
  }

  lemma BytesLogged(log: seq<(Who, byte)>, w: Who, data: seq<byte>)
    ensures Bytes(log + Tag(w, data)) == Bytes(log) + data
  {
  }

  /** A write appends to the stream of added bytes, for its own task only. */
  lemma PutFacts(s: System, t: Tid, data: seq<byte>)
    requires |s.contents| <= s.capacity && Bytes(s.added) == Bytes(s.removed) + s.contents
    ensures var s', k := Put(s, t, data), Min(|data|, s.capacity - |s.contents|);
      && |s'.contents| == |s.contents| + k <= s.capacity && Bytes(s'.added) == Bytes(s'.removed) + s'.contents
      && s' == s.(contents := s'.contents, added := s'.added)
      && forall u :: Mine(s'.added, u) == Mine(s.added, u) + if u == t then data[..k] else []
  {
    hide Mine, Bytes, Tag;
    var d := data[..Min(|data|, s.capacity - |s.contents|)];
    BytesLogged(s.added, Task(t), d);
    forall u ensures Mine(Put(s, t, data).added, u) == Mine(s.added, u) + if u == t then d else [] {
      MineLogged(s.added, Task(t), d, u);
    }
  }

  /** Removing a prefix of the contents moves it to the stream of removed bytes. */
  lemma RemoveFacts(s: System, w: Who, k: nat)
    requires k <= |s.contents| && Bytes(s.added) == Bytes(s.removed) + s.contents
    ensures var r := s.removed + Tag(w, s.contents[..k]);
      && Bytes(s.added) == Bytes(r) + s.contents[k..]
      && forall u :: Mine(r, u) == Mine(s.removed, u) + if w == Task(u) then s.contents[..k] else []
  {
    hide Mine, Bytes, Tag;
    var d := s.contents[..k];
    BytesLogged(s.removed, w, d);
    assert s.contents == d + s.contents[k..];
    forall u ensures Mine(s.removed + Tag(w, d), u) == Mine(s.removed, u) + if w == Task(u) then d else [] {
      MineLogged(s.removed, w, d, u);
    }
  }

  /** Nothing about task `u` changes. */
  ghost predicate SameFor(s: System, s': System, u: Tid)
    requires u in s.calls && u in s.wrote && u in s.received && u in s'.calls && u in s'.wrote && u in s'.received
  {
    && s'.calls[u] == s.calls[u] && s'.wrote[u] == s.wrote[u] && s'.received[u] == s.received[u]
    && Mine(s'.added, u) == Mine(s.added, u) && Mine(s'.removed, u) == Mine(s.removed, u)
  }

  lemma OneTaskChanges(s: System, s': System, t: Tid)
    requires Inv(s) && t in s.calls && s'.calls.Keys == s'.wrote.Keys == s'.received.Keys == s.calls.Keys
    requires |s'.contents| <= s'.capacity && Bytes(s'.added) == Bytes(s'.removed) + s'.contents
    requires TaskOk(s', t) && forall u :: u in s.calls && u != t ==> SameFor(s, s', u)
    ensures Inv(s')
  {
    hide Mine, Bytes, Tag;
    forall u | u in s.calls && u != t ensures TaskOk(s', u) {
      assert TaskOk(s, u) && SameFor(s, s', u);
    }
  }

  lemma AdvanceWriteTask(s: System, t: Tid)
    requires Shape(s) && t in s.calls && TaskOk(s, t) && s.calls[t].Writing?
    requires Bytes(s.added) == Bytes(s.removed) + s.contents
    ensures var s' := Advance(s, t); Shape(s') && TaskOk(s', t)
  {
    hide Mine, Bytes, Tag, Put;
    var c := s.calls[t];
    PutFacts(s, t, c.data[c.sent..]);
    var s' := Advance(s, t);
    var k := Min(|c.data| - c.sent, s.capacity - |s.contents|);
    assert c.data[..c.sent] + c.data[c.sent..][..k] == c.data[..c.sent + k];
    assert c.data[..|c.data|] == c.data;
    assert Mine(s'.added, t) == s.wrote[t] + c.data[..c.sent + k];
  }

  lemma AdvanceWriteOthers(s: System, t: Tid, u: Tid)
    requires Shape(s) && t in s.calls && s.calls[t].Writing? && u in s.calls && u != t
    requires Bytes(s.added) == Bytes(s.removed) + s.contents
    ensures SameFor(s, Advance(s, t), u)
  {
    hide Mine, Bytes, Tag, Put;
    PutFacts(s, t, s.calls[t].data[s.calls[t].sent..]);
  }

  lemma AdvanceWriteBytes(s: System, t: Tid)
    requires Shape(s) && t in s.calls && s.calls[t].Writing? && Bytes(s.added) == Bytes(s.removed) + s.contents
    ensures var s' := Advance(s, t); Bytes(s'.added) == Bytes(s'.removed) + s'.contents && s'.calls.Keys == s.calls.Keys
  {
    hide Mine, Bytes, Tag, Put;
    PutFacts(s, t, s.calls[t].data[s.calls[t].sent..]);
  }

  lemma AdvanceWriteKeeps(s: System, t: Tid)
    requires Inv(s) && t in s.calls && s.calls[t].Writing?
    ensures Inv(Advance(s, t))
  {
    InvFacts(s, t);
    AdvanceWriteTask(s, t);
    AdvanceWriteBytes(s, t);
    var s' := Advance(s, t);
    forall u | u in s.calls && u != t ensures SameFor(s, s', u) { AdvanceWriteOthers(s, t, u); }
    hide Mine, Bytes, Tag, Inv, TaskOk, SameFor, Advance;
    OneTaskChanges(s, s', t);
  }

  lemma AdvanceReadTask(s: System, t: Tid)
    requires Shape(s) && t in s.calls && TaskOk(s, t) && s.calls[t].Reading?
    requires Bytes(s.added) == Bytes(s.removed) + s.contents
    ensures var s' := Advance(s, t);
      Shape(s') && TaskOk(s', t) && Bytes(s'.added) == Bytes(s'.removed) + s'.contents
  {
    hide Mine, Bytes, Tag;
    var c := s.calls[t];
    var k := Min(c.len - |c.got|, |s.contents|);
    RemoveFacts(s, Task(t), k);
    var s' := Advance(s, t);
    assert Mine(s'.removed, t) == s.received[t] + (c.got + s.contents[..k]);
  }

  lemma AdvanceReadOthers(s: System, t: Tid, u: Tid)
    requires Shape(s) && t in s.calls && s.calls[t].Reading? && u in s.calls && u != t
    requires Bytes(s.added) == Bytes(s.removed) + s.contents
    ensures SameFor(s, Advance(s, t), u)
  {
    hide Mine, Bytes, Tag;
    RemoveFacts(s, Task(t), Min(s.calls[t].len - |s.calls[t].got|, |s.contents|));
  }

  lemma AdvanceReadKeeps(s: System, t: Tid)
    requires Inv(s) && t in s.calls && s.calls[t].Reading?
    ensures Inv(Advance(s, t))
  {
    InvFacts(s, t);
    AdvanceReadTask(s, t);
    AdvanceKeys(s, t);
    var s' := Advance(s, t);
    forall u | u in s.calls && u != t ensures SameFor(s, s', u) { AdvanceReadOthers(s, t, u); }
    hide Mine, Bytes, Tag, Inv, TaskOk, SameFor, Advance;
    OneTaskChanges(s, s', t);
  }

  lemma NbWriteTask(s: System, t: Tid, data: seq<byte>)
    requires Shape(s) && t in s.calls && TaskOk(s, t) && s.calls[t].Idle? && data != []
    requires Bytes(s.added) == Bytes(s.removed) + s.contents
    ensures var s' := Step(s, NbWrite(t, data)); Shape(s') && TaskOk(s', t)
  {
    hide Mine, Bytes, Tag, Put;
    PutFacts(s, t, data);
  }

  lemma NbWriteKeeps(s: System, t: Tid, data: seq<byte>)
    requires Inv(s) && t in s.calls && s.calls[t].Idle? && data != []
    ensures Inv(Step(s, NbWrite(t, data)))
  {
    InvFacts(s, t);
    NbWriteTask(s, t, data);
    PutFacts(s, t, data);
    hide Mine, Bytes, Tag, Put, Inv, TaskOk, Shape;
    var s' := Step(s, NbWrite(t, data));
    forall u | u in s.calls && u != t ensures SameFor(s, s', u) { }
    OneTaskChanges(s, s', t);
  }

  lemma NbReadTask(s: System, t: Tid, len: nat)
    requires Shape(s) && t in s.calls && TaskOk(s, t) && s.calls[t].Idle? && len > 0
    requires Bytes(s.added) == Bytes(s.removed) + s.contents
    ensures var s' := Step(s, NbRead(t, len));
      Shape(s') && TaskOk(s', t) && Bytes(s'.added) == Bytes(s'.removed) + s'.contents
  {
    hide Mine, Bytes, Tag;
    RemoveFacts(s, Task(t), Min(len, |s.contents|));
  }

  lemma NbReadOthers(s: System, t: Tid, len: nat, u: Tid)
    requires Shape(s) && t in s.calls && s.calls[t].Idle? && len > 0 && u in s.calls && u != t
    requires Bytes(s.added) == Bytes(s.removed) + s.contents
    ensures SameFor(s, Step(s, NbRead(t, len)), u)
  {
    hide Mine, Bytes, Tag;
    RemoveFacts(s, Task(t), Min(len, |s.contents|));
  }

  lemma NbReadKeeps(s: System, t: Tid, len: nat)
    requires Inv(s) && t in s.calls && s.calls[t].Idle? && len > 0
    ensures Inv(Step(s, NbRead(t, len)))
  {
    InvFacts(s, t);
    NbReadTask(s, t, len);
    var s' := Step(s, NbRead(t, len));
    assert s'.calls.Keys == s'.wrote.Keys == s'.received.Keys == s.calls.Keys;
    forall u | u in s.calls && u != t ensures SameFor(s, s', u) { NbReadOthers(s, t, len, u); }
    hide Mine, Bytes, Tag, Inv, TaskOk, SameFor, Step;
    OneTaskChanges(s, s', t);
  }

  lemma FlushKeeps(s: System)
    requires Inv(s)
    ensures Inv(Step(s, Flush))
  {
    hide Mine, Bytes, Tag;
    RemoveFacts(s, Flushed, |s.contents|);
    var s' := Step(s, Flush);
    assert s.contents[..|s.contents|] == s.contents;
    forall u | u in s.calls ensures TaskOk(s', u) {
      assert TaskOk(s, u);
    }
  }

  lemma BeginKeeps(s: System, t: Tid, c: Call)
    requires Inv(s) && t in s.calls && s.calls[t].Idle? && Well(c) && SentBy(c) == [] && GotBy(c) == []
    ensures Inv(s.(calls := s.calls[t := c]))
  {
    InvFacts(s, t);
    hide Mine, Bytes, Tag, Inv;
    var s' := s.(calls := s.calls[t := c]);
    forall u | u in s.calls && u != t ensures SameFor(s, s', u) { }
    OneTaskChanges(s, s', t);
  }

  lemma StepKeeps(s: System, e: Event)
    requires Inv(s) && Enabled(s, e)
    ensures Inv(Step(s, e))
  {
    if Accepted(e) {
      match e {
        case BeginWrite(t, data) => BeginKeeps(s, t, Writing(data, 0));
        case BeginRead(t, len) => BeginKeeps(s, t, Reading(len, []));
        case Chunk(t) =>
          assert TaskOk(s, t);
          if s.calls[t].Writing? { AdvanceWriteKeeps(s, t); }
          else if s.calls[t].Reading? { AdvanceReadKeeps(s, t); }
        case NbWrite(t, data) => NbWriteKeeps(s, t, data);
        case NbRead(t, len) => NbReadKeeps(s, t, len);
        case Flush => FlushKeeps(s);
      }
    }
  }

  ghost predicate Next(s: System, e: Event, s': System) {
    Shape(s) && Enabled(s, e) && s' == Step(s, e)
  }

  ghost predicate IsRun(run: seq<System>, events: seq<Event>) {
    && |run| == |events| + 1
    && forall i :: 0 <= i < |events| ==>
      Next(run[i], events[i], run[i + 1])
  }

  function Start(capacity: nat, tasks: set<Tid>): System {
    System(capacity, [], map t | t in tasks :: Idle, [], [], map t | t in tasks :: [], map t | t in tasks :: [])
  }

  /**
   * Every interleaving of blocking and non-blocking calls and flushes: the bytes added are, in order, the
   * bytes removed followed by the bytes still stored, and each task's own bytes are those of its
   * finished calls followed by those of the call it is in.
   */
  lemma {:induction false} RunsKeepTheStream(run: seq<System>, events: seq<Event>, capacity: nat, tasks: set<Tid>)
    requires IsRun(run, events) && run[0] == Start(capacity, tasks)
    ensures forall i :: 0 <= i < |run| ==> Inv(run[i])
    decreases |run|
  {
    if |run| > 1 {
      hide Inv, Step;
      var n := |events| - 1;
      assert Next(run[n], events[n], run[n + 1]);
      RunsKeepTheStream(run[..n + 1], events[..n], capacity, tasks);
      assert Inv(run[..n + 1][n]);
      StepKeeps(run[n], events[n]);
    }
  }

  ghost predicate OnlyBy(log: seq<(Who, byte)>, t: Tid) {
    forall i :: 0 <= i < |log| ==> log[i].0 == Task(t)
  }

  lemma {:induction false} OnlyMine(log: seq<(Who, byte)>, t: Tid)
    requires OnlyBy(log, t)
    ensures Mine(log, t) == Bytes(log)
    decreases |log|
  {
    if log != [] {
      var n := |log| - 1;
      OnlyMine(log[..n], t);
      assert Bytes(log) == Bytes(log[..n]) + [log[n].1];
    }
  }

  /** One writer, one reader, no flush: what the reader has is a prefix of what the writer gave. */
  lemma ReaderSeesWriterPrefix(s: System, w: Tid, r: Tid)
    requires Inv(s) && w in s.calls && r in s.calls && OnlyBy(s.added, w) && OnlyBy(s.removed, r)
    ensures s.received[r] + GotBy(s.calls[r]) + s.contents == s.wrote[w] + SentBy(s.calls[w])
  {
    assert TaskOk(s, w) && TaskOk(s, r);
    OnlyMine(s.added, w);
    OnlyMine(s.removed, r);
  }

  /** A write that does not wait appends as many bytes as fit. */
  lemma NbWriteMeans(s: System, t: Tid, data: seq<byte>)
    requires Shape(s) && t in s.calls && s.calls[t].Idle?
    ensures var s' := Step(s, NbWrite(t, data)); var k := s.capacity - |s.contents|;
      var d := if |data| <= k then data else data[..k];
      && s'.contents == s.contents + d && s'.wrote == s.wrote[t := s.wrote[t] + d]
      && s'.calls == s.calls && s'.received == s.received
  {
    hide Tag;
    if data == [] {
      assert s.wrote[t] + [] == s.wrote[t];
    } else {
      var d := Fitting(data, s.capacity - |s.contents|);
      assert data[..|data|] == data && data[..|s.contents + d| - |s.contents|] == d;
    }
  }

  /** A read that does not wait takes as many bytes as there are, from the front. */
  lemma NbReadMeans(s: System, t: Tid, len: nat)
    requires Shape(s) && t in s.calls && s.calls[t].Idle?
    ensures var s' := Step(s, NbRead(t, len));
      var d := if |s.contents| <= len then s.contents else s.contents[..len];
      && s.contents == d + s'.contents && s'.received == s.received[t := s.received[t] + d]
      && s'.calls == s.calls && s'.wrote == s.wrote
  {
    hide Tag;
    if len == 0 { assert s.received[t] + [] == s.received[t]; }
  }

  /** A flush empties the pipe and disturbs no call. */
  lemma FlushMeans(s: System)
    requires Shape(s)
    ensures var s' := Step(s, Flush);
      s' == s.(contents := [], removed := s'.removed) && Bytes(s'.removed) == Bytes(s.removed) + s.contents
  {
    BytesLogged(s.removed, Flushed, s.contents);
  }

  /** A blocking call begins unless its length is 0. */
  lemma BeginMeans(s: System, t: Tid, data: seq<byte>, len: nat)
    requires Shape(s) && t in s.calls && s.calls[t].Idle?
    ensures Step(s, BeginWrite(t, data)) == if data == [] then s else s.(calls := s.calls[t := Writing(data, 0)])
    ensures Step(s, BeginRead(t, len)) == if len == 0 then s else s.(calls := s.calls[t := Reading(len, [])])
  {
  }

  /** A blocking call returns exactly when its whole length has been moved, and moves nothing else. */
  lemma ReturnsExactly(s: System, t: Tid)
    requires Inv(s) && t in s.calls && !s.calls[t].Idle?
    ensures var s', c := Step(s, Chunk(t)), s.calls[t];
      && (c.Writing? ==>
        && s'.received == s.received
        && (s'.calls[t].Idle? <==> |c.data| - c.sent <= s.capacity - |s.contents|)
        && s'.wrote[t] == s.wrote[t] + if s'.calls[t].Idle? then c.data else [])
      && (c.Reading? ==>
        && s'.wrote == s.wrote
        && (s'.calls[t].Idle? <==> c.len - |c.got| <= |s.contents|)
        && (s'.calls[t].Idle? ==>
          exists g :: |g| == c.len && c.got <= g && s'.received[t] == s.received[t] + g))
  {
    hide Mine, Bytes, Tag;
    assert TaskOk(s, t);
    var c := s.calls[t];
    if c.Reading? && c.len - |c.got| <= |s.contents| {
      var g := c.got + s.contents[..c.len - |c.got|];
      assert |g| == c.len && Step(s, Chunk(t)).received[t] == s.received[t] + g;
    }
  }

  lemma AdvanceKeys(s: System, t: Tid)
    requires Shape(s) && t in s.calls
    ensures Advance(s, t).calls.Keys == s.calls.Keys
  {
  }

  /** Where a transfer of `data` from `w` to `r` stands between two rounds. */
  ghost predicate Transferring(s0: System, s: System, w: Tid, r: Tid, data: seq<byte>, sent: nat) {
    && sent <= |data| && s.contents == [] && s.capacity == s0.capacity
    && w in s.calls && r in s.calls && r in s0.received && r in s.received
    && if sent == |data| then
      s.calls[w].Idle? && s.calls[r].Idle? && s.received[r] == s0.received[r] + data
    else
      s.calls[w] == Writing(data, sent) && s.calls[r] == Reading(|data|, data[..sent]) && s.received[r] == s0.received[r]
  }

  /** Between the two halves of a round. */
  ghost predicate Halfway(s0: System, s: System, w: Tid, r: Tid, data: seq<byte>, sent: nat, k: nat) {
    && sent + k <= |data| && sent < |data| && s.contents == data[sent..sent + k] && s.capacity == s0.capacity
    && w in s.calls && r in s.calls && r in s0.received && r in s.received
    && s.calls[w] == (if sent + k == |data| then Idle else Writing(data, sent + k))
    && s.calls[r] == Reading(|data|, data[..sent]) && s.received[r] == s0.received[r]
  }

  lemma WriterFills(s0: System, s: System, w: Tid, r: Tid, data: seq<byte>, sent: nat)
    requires Shape(s) && w != r && sent < |data| && Transferring(s0, s, w, r, data, sent)
    ensures Halfway(s0, Step(s, Chunk(w)), w, r, data, sent, Min(|data| - sent, s.capacity))
  {
    hide Tag, Shape;
    var k := Min(|data| - sent, s.capacity);
    assert [] + data[sent..][..k] == data[sent..sent + k];
  }

  lemma ReaderEmpties(s0: System, s: System, w: Tid, r: Tid, data: seq<byte>, sent: nat, k: nat)
    requires Shape(s) && w != r && Halfway(s0, s, w, r, data, sent, k)
    ensures Transferring(s0, Step(s, Chunk(r)), w, r, data, sent + k)
  {
    hide Tag, Shape;
    assert data[sent..sent + k][..k] == data[sent..sent + k];
    assert data[..sent] + data[sent..sent + k] == data[..sent + k];
    assert sent + k == |data| ==> data[..sent + k] == data;
  }

  /** A writer that finds the pipe full or has nothing left changes nothing. */
  lemma WriterIdles(s0: System, s: System, w: Tid, r: Tid, data: seq<byte>, sent: nat, k: nat)
    requires Shape(s) && w != r && Halfway(s0, s, w, r, data, sent, k) && k == Min(|data| - sent, s.capacity)
    ensures Halfway(s0, Step(s, Chunk(w)), w, r, data, sent, k)
  {
    hide Tag, Shape;
    if sent + k < |data| { assert s.contents + data[sent + k..][..0] == s.contents; }
  }

  /** A reader that finds the pipe empty changes nothing, and neither side does once the message has passed. */
  lemma ReaderIdles(s0: System, s: System, w: Tid, r: Tid, t: Tid, data: seq<byte>, sent: nat)
    requires Shape(s) && w != r && Transferring(s0, s, w, r, data, sent) && (t == r || (t == w && sent == |data|))
    ensures Transferring(s0, Step(s, Chunk(t)), w, r, data, sent)
  {
    hide Tag, Shape;
    assert data[..sent] + [] == data[..sent];
  }

  /** How often the turn has passed from the writer to the reader. */
  function Handovers(events: seq<Event>, w: Tid, r: Tid): nat {
    var n := |events|;
    if n < 2 then 0
    else Handovers(events[..n - 1], w, r) + if events[n - 2] == Chunk(w) && events[n - 1] == Chunk(r) then 1 else 0
  }

  /** The state a schedule leads to depends only on its hand-overs and on whose turn was last. */
  ghost predicate Reached(s0: System, s: System, w: Tid, r: Tid, data: seq<byte>, handovers: nat, last: Tid) {
    var moved := Min(handovers * s0.capacity, |data|);
    if last == w && moved < |data| then Halfway(s0, s, w, r, data, moved, Min(|data| - moved, s0.capacity))
    else Transferring(s0, s, w, r, data, moved)
  }

  lemma MovesOn(size: nat, capacity: nat, h: nat)
    requires h * capacity < size
    ensures Min((h + 1) * capacity, size) == Min(h * capacity, size) + Min(size - Min(h * capacity, size), capacity)
  {
    assert (h + 1) * capacity == h * capacity + capacity;
  }

  lemma ChunkReaches(s0: System, s: System, w: Tid, r: Tid, data: seq<byte>, h: nat, last: Tid, t: Tid)
    requires Shape(s) && w != r && (t == w || t == r) && (last == w || last == r) && t in s.calls
    requires Reached(s0, s, w, r, data, h, last)
    ensures Reached(s0, Step(s, Chunk(t)), w, r, data, if last == w && t == r then h + 1 else h, t)
  {
    var moved := Min(h * s0.capacity, |data|);
    if moved == |data| {
      Overshoot(|data|, s0.capacity, h);
      ReaderIdles(s0, s, w, r, t, data, moved);
    } else if last == w {
      var k := Min(|data| - moved, s0.capacity);
      MovesOn(|data|, s0.capacity, h);
      if t == w { WriterIdles(s0, s, w, r, data, moved, k); } else { ReaderEmpties(s0, s, w, r, data, moved, k); }
    } else if t == w {
      WriterFills(s0, s, w, r, data, moved);
    } else {
      ReaderIdles(s0, s, w, r, t, data, moved);
    }
  }

  lemma Overshoot(size: nat, capacity: nat, h: nat)
    requires h * capacity >= size
    ensures (h + 1) * capacity >= size
  {
    assert (h + 1) * capacity == h * capacity + capacity;
  }

  ghost predicate OnlyTurns(events: seq<Event>, w: Tid, r: Tid) {
    forall i :: 0 <= i < |events| ==> events[i] == Chunk(w) || events[i] == Chunk(r)
  }

  /** The task that moved last; at the start the writer's turn is next. */
  function LastTurn(events: seq<Event>, r: Tid): Tid {
    if events != [] && events[|events| - 1].Chunk? then events[|events| - 1].t else r
  }

  lemma OneMoreTurn(run: seq<System>, events: seq<Event>, w: Tid, r: Tid)
    requires IsRun(run, events) && OnlyTurns(events, w, r) && w != r && events != []
    ensures var n := |events| - 1;
      var last, t := LastTurn(events[..n], r), LastTurn(events, r);
      && IsRun(run[..n + 1], events[..n]) && OnlyTurns(events[..n], w, r)
      && (last == w || last == r) && (t == w || t == r) && Next(run[n], Chunk(t), run[n + 1])
      && Handovers(events, w, r) == if last == w && t == r then Handovers(events[..n], w, r) + 1 else Handovers(events[..n], w, r)
  {
    hide Next;
    var n := |events| - 1;
    assert events[n] == Chunk(LastTurn(events, r));
    if n > 0 { assert events[..n][n - 1] == events[n - 1]; }
  }

  lemma {:induction false} ScheduleReaches(run: seq<System>, events: seq<Event>, w: Tid, r: Tid, data: seq<byte>)
    requires IsRun(run, events) && OnlyTurns(events, w, r) && w != r && Transferring(run[0], run[0], w, r, data, 0)
    ensures Reached(run[0], run[|events|], w, r, data, Handovers(events, w, r), LastTurn(events, r))
    decreases |events|
  {
    if events != [] {
      hide Step, Transferring, Halfway, Reached, IsRun, OnlyTurns, Handovers, LastTurn;
      var n := |events| - 1;
      OneMoreTurn(run, events, w, r);
      ScheduleReaches(run[..n + 1], events[..n], w, r, data);
      ChunkReaches(run[0], run[n], w, r, data, Handovers(events[..n], w, r), LastTurn(events[..n], r), LastTurn(events, r));
    }
  }

  /**
   * A message through a pipe of any capacity, under every schedule of the two tasks: the reader has the
   * message exactly when the hand-overs from writer to reader times the capacity reach its length.
   */
  lemma TransferCompletesIff(run: seq<System>, events: seq<Event>, w: Tid, r: Tid, data: seq<byte>)
    requires IsRun(run, events) && OnlyTurns(events, w, r) && w != r && Transferring(run[0], run[0], w, r, data, 0)
    requires data != []
    ensures var s, s' := run[0], run[|events|];
      && r in s.received && r in s'.received && r in s'.calls && w in s'.calls
      && (Handovers(events, w, r) * s.capacity >= |data| ==>
           s'.received[r] == s.received[r] + data && s'.calls[r].Idle? && s'.calls[w].Idle? && s'.contents == [])
      && (Handovers(events, w, r) * s.capacity < |data| ==>
           s'.received[r] == s.received[r] && s'.calls[r] == Reading(|data|, data[..Handovers(events, w, r) * s.capacity]))
  {
    ScheduleReaches(run, events, w, r, data);
  }

  /** With room for a byte one hand-over per byte is enough. */
  lemma TransferCompletes(run: seq<System>, events: seq<Event>, w: Tid, r: Tid, data: seq<byte>)
    requires IsRun(run, events) && OnlyTurns(events, w, r) && w != r && Transferring(run[0], run[0], w, r, data, 0)
    requires data != [] && run[0].capacity > 0 && Handovers(events, w, r) >= |data|
    ensures var s, s' := run[0], run[|events|];
      && r in s.received && r in s'.received && r in s'.calls && w in s'.calls
      && s'.received[r] == s.received[r] + data && s'.calls[r].Idle? && s'.calls[w].Idle?
  {
    TransferCompletesIff(run, events, w, r, data);
    hide IsRun, Transferring, Handovers, OnlyTurns;
    AtLeast(Handovers(events, w, r), run[0].capacity);
  }

  lemma AtLeast(h: nat, c: nat)
    requires c > 0
    ensures h * c >= h
  {
  }

  lemma TurnKeeps(s: System, t: Tid)
    requires Inv(s) && t in s.calls
    ensures var s' := Advance(s, t); Next(s, Chunk(t), s') && Inv(s') && s'.calls.Keys == s.calls.Keys
  {
    InvFacts(s, t);
    AdvanceKeys(s, t);
    hide Inv, Advance, Shape;
    StepKeeps(s, Chunk(t));
  }

  lemma LongerRun(run: seq<System>, events: seq<Event>, s: System)
    requires events != [] && IsRun(run, events[..|events| - 1]) && Next(run[|events| - 1], events[|events| - 1], s)
    ensures IsRun(run + [s], events)
  {
    hide Next;
    var n := |events| - 1;
    forall i | 0 <= i < |events| ensures Next((run + [s])[i], events[i], (run + [s])[i + 1]) {
      if i < n { assert events[..n][i] == events[i]; }
    }
  }

  /** Every schedule of the two tasks can be carried out. */
  lemma {:induction false} SchedulesRun(s: System, events: seq<Event>, w: Tid, r: Tid) returns (run: seq<System>)
    requires Inv(s) && w in s.calls && r in s.calls && OnlyTurns(events, w, r)
    ensures IsRun(run, events) && run[0] == s && Inv(run[|events|]) && run[|events|].calls.Keys == s.calls.Keys
    decreases |events|
  {
    if events == [] {
      run := [s];
    } else {
      hide Inv, Advance, Next;
      var n := |events| - 1;
      run := SchedulesRun(s, events[..n], w, r);
      assert events[n] == Chunk(events[n].t);
      hide OnlyTurns, IsRun;
      var s' := Advance(run[n], events[n].t);
      TurnKeeps(run[n], events[n].t);
      LongerRun(run, events, s');
      run := run + [s'];
    }
  }

  lemma BeginBoth(run: seq<System>, events: seq<Event>, w: Tid, r: Tid, data: seq<byte>)
    requires IsRun(run, events) && |events| >= 2 && w != r && data != []
    requires events[0] == BeginWrite(w, data) && events[1] == BeginRead(r, |data|)
    requires w in run[0].calls && r in run[0].calls && run[0].contents == []
    ensures r in run[0].received && r in run[2].received && run[2].received[r] == run[0].received[r]
    ensures run[2].capacity == run[0].capacity && Transferring(run[2], run[2], w, r, data, 0)
  {
    assert Next(run[0], events[0], run[1]) && Next(run[1], events[1], run[2]);
    BeginMeans(run[0], w, data, 0);
    BeginMeans(run[1], r, [], |data|);
    hide Step;
    assert data[..0] == [];
  }

  lemma RunTail(run: seq<System>, events: seq<Event>, k: nat)
    requires IsRun(run, events) && k <= |events|
    ensures IsRun(run[k..], events[k..]) && run[k..][0] == run[k] && run[k..][|events[k..]|] == run[|events|]
  {
    hide Next;
    forall i | 0 <= i < |events[k..]| ensures Next(run[k..][i], events[k..][i], run[k..][i + 1]) {
      assert Next(run[i + k], events[i + k], run[i + k + 1]);
    }
  }

  /** From two tasks outside any call and an empty pipe: `mo_pipe_write` and `mo_pipe_read` of the whole message,
      under every schedule. */
  lemma MessagePasses(run: seq<System>, events: seq<Event>, w: Tid, r: Tid, data: seq<byte>)
    requires IsRun(run, events) && |events| >= 2 && w != r && data != []
    requires events[0] == BeginWrite(w, data) && events[1] == BeginRead(r, |data|) && OnlyTurns(events[2..], w, r)
    requires w in run[0].calls && r in run[0].calls && run[0].contents == []
    ensures var s, s' := run[0], run[|events|];
      && r in s.received && r in s'.received && r in s'.calls && w in s'.calls
      && (s'.received[r] == s.received[r] + data <==> Handovers(events[2..], w, r) * s.capacity >= |data|)
      && (s'.calls[r].Idle? <==> Handovers(events[2..], w, r) * s.capacity >= |data|)
  {
    BeginBoth(run, events, w, r, data);
    RunTail(run, events, 2);
    hide IsRun, Transferring, Handovers, OnlyTurns;
    TransferCompletesIff(run[2..], events[2..], w, r, data);
  }
}
