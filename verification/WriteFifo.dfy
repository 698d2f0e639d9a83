/** The write side of the DMA FIFO of util/fifo.cc as a state machine over its events. */
module WriteFifo {
  import opened Outcomes
  import opened Arithmetic

  /** wqSize and transferUnit; the constructor refuses a unit larger than the queue. */
  datatype Param = Param(capacity: nat, unit: nat) {
    predicate Valid() {
      0 < unit <= capacity
    }
  }

  datatype Request = Request(id: nat, addr: nat, buffer: Option<nat>, size: nat)

  datatype Entry = Entry(id: nat, addr: nat, buffer: Option<nat>, size: nat, last: bool)

  function Skip(b: Option<nat>, n: nat): Option<nat> {
    if b.Some? then Some(b.value + n) else None
  }

  /** DIVCEIL of util/algorithm.hh */
  function DivCeil(x: nat, n: nat): nat
    requires 0 < n
  {
    (x + n - 1) / n
  }

  /** calcSize: whole transfer units, except for what is smaller than one. */
  function Rounded(p: Param, size: nat): nat
    requires p.Valid()
  {
    if size < p.unit then size else DivCeil(size, p.unit) * p.unit
  }

  lemma DivCeilBounds(x: nat, n: nat)
    requires 0 < n
    ensures x <= DivCeil(x, n) * n < x + n
  {
    DivMod(x + n - 1, n);
  }

  /** Rounding adds less than one unit, and a unit is not rounded. */
  lemma RoundedBounds(p: Param, size: nat)
    requires p.Valid()
    ensures size <= Rounded(p, size) < size + p.unit && Rounded(p, p.unit) == p.unit
    ensures Rounded(p, size) > p.capacity ==> size > p.unit
  {
    DivCeilBounds(size, p.unit);
    Combine(p.unit, 1, p.unit - 1);
    if size == p.unit { assert Rounded(p, size) == p.unit; }
  }

  function Load(p: Param, es: seq<Entry>): nat
    requires p.Valid()
  {
    if es == [] then 0 else Load(p, es[..|es| - 1]) + Rounded(p, es[|es| - 1].size)
  }

  lemma {:induction false} LoadHead(p: Param, es: seq<Entry>)
    requires p.Valid() && es != []
    ensures Load(p, es) == Rounded(p, es[0].size) + Load(p, es[1..])
    decreases |es|
  {
    hide Rounded;
    if |es| > 1 {
      LoadHead(p, es[..|es| - 1]);
      assert es[..|es| - 1][1..] == es[1..][..|es| - 2];
    }
  }

  // ----- segments against requests ---------------------------------------------------------------------------

  /** What remains of a request after its first n bytes. */
  function Rest(r: Request, n: nat): Request
    requires n <= r.size
  {
    Request(r.id, r.addr + n, Skip(r.buffer, n), r.size - n)
  }

  /** The segments make up the requests: in order, without gap or overlap, and the segment that ends a request
      is the one marked last. */
  predicate Assembles(es: seq<Entry>, rs: seq<Request>) {
    if es == [] then rs == []
    else
      var e := es[0];
      && rs != []
      && var r := rs[0];
         && 0 < e.size && e.id == r.id && e.addr == r.addr && e.buffer == r.buffer
         && if e.last then e.size == r.size && Assembles(es[1..], rs[1..])
            else e.size < r.size && Assembles(es[1..], [Rest(r, e.size)] + rs[1..])
  }

  function Range(a: nat, n: nat): seq<nat> {
    seq(n, i requires 0 <= i < n => a + i)
  }

  /** Byte addresses in the order in which they are written. */
  function Bytes(es: seq<Entry>): seq<nat> {
    if es == [] then [] else Range(es[0].addr, es[0].size) + Bytes(es[1..])
  }

  function Asked(rs: seq<Request>): seq<nat> {
    if rs == [] then [] else Range(rs[0].addr, rs[0].size) + Asked(rs[1..])
  }

  /** Requests whose last segment is among these. */
  function Ended(es: seq<Entry>): seq<nat> {
    if es == [] then [] else (if es[0].last then [es[0].id] else []) + Ended(es[1..])
  }

  function Ids(rs: seq<Request>): seq<nat> {
    seq(|rs|, i requires 0 <= i < |rs| => rs[i].id)
  }

  /** So the bytes written are the bytes asked for, each once and in order, and every request ends once. */
  lemma {:induction false} AssemblesMeans(es: seq<Entry>, rs: seq<Request>)
    requires Assembles(es, rs)
    ensures Bytes(es) == Asked(rs) && Ended(es) == Ids(rs)
    decreases |es|
  {
    if es != [] {
      var e, r := es[0], rs[0];
      if e.last {
        AssemblesMeans(es[1..], rs[1..]);
        assert Ids(rs) == [r.id] + Ids(rs[1..]);
      } else {
        var rs' := [Rest(r, e.size)] + rs[1..];
        AssemblesMeans(es[1..], rs');
        assert Asked(rs') == Range(r.addr + e.size, r.size - e.size) + Asked(rs[1..]) by { assert rs'[1..] == rs[1..]; }
        assert Range(r.addr, r.size) == Range(r.addr, e.size) + Range(r.addr + e.size, r.size - e.size);
        assert Ids(rs') == Ids(rs);
        assert Ended(es) == Ended(es[1..]);
      }
    }
  }

  lemma {:induction false} AssemblesAppend(es: seq<Entry>, rs: seq<Request>, r: Request)
    requires Assembles(es, rs) && 0 < r.size
    ensures Assembles(es + [Entry(r.id, r.addr, r.buffer, r.size, true)], rs + [r])
    decreases |es|
  {
    var e' := Entry(r.id, r.addr, r.buffer, r.size, true);
    if es == [] {
      assert es + [e'] == [e'] && rs + [r] == [r];
    } else {
      assert (es + [e'])[1..] == es[1..] + [e'];
      assert (rs + [r])[1..] == rs[1..] + [r];
      if es[0].last {
        AssemblesAppend(es[1..], rs[1..], r);
      } else {
        var rest := [Rest(rs[0], es[0].size)];
        AssemblesAppend(es[1..], rest + rs[1..], r);
        assert rest + rs[1..] + [r] == rest + (rs[1..] + [r]);
      }
    }
  }

  function First(e: Entry, n: nat): Entry {
    e.(size := n, last := false)
  }

  function Second(e: Entry, n: nat): Entry
    requires n <= e.size
  {
    Entry(e.id, e.addr + n, Skip(e.buffer, n), e.size - n, true)
  }

  /** Splitting the last segment of a request in two. */
  lemma {:induction false} AssemblesSplit(done: seq<Entry>, e: Entry, todo: seq<Entry>, rs: seq<Request>, n: nat)
    requires Assembles(done + [e] + todo, rs) && e.last && 0 < n < e.size
    ensures Assembles(done + [First(e, n)] + ([Second(e, n)] + todo), rs)
    decreases |done|
  {
    var old_, new_ := done + [e] + todo, done + [First(e, n)] + ([Second(e, n)] + todo);
    if done == [] {
      var rs' := [Rest(rs[0], n)] + rs[1..];
      assert old_[1..] == todo && new_[1..] == [Second(e, n)] + todo;
      assert ([Second(e, n)] + todo)[1..] == todo && rs'[1..] == rs[1..];
      assert Assembles([Second(e, n)] + todo, rs');
    } else {
      assert old_[1..] == done[1..] + [e] + todo;
      assert new_[1..] == done[1..] + [First(e, n)] + ([Second(e, n)] + todo);
      AssemblesSplit(done[1..], e, todo, if done[0].last then rs[1..] else [Rest(rs[0], done[0].size)] + rs[1..], n);
    }
  }

  lemma {:induction false} EndedAppend(es: seq<Entry>, fs: seq<Entry>)
    ensures Ended(es + fs) == Ended(es) + Ended(fs)
    decreases |es|
  {
    if es == [] {
      assert es + fs == fs;
    } else {
      EndedAppend(es[1..], fs);
      assert (es + fs)[1..] == es[1..] + fs && (es + fs)[0] == es[0];
      var head := if es[0].last then [es[0].id] else [];
      assert head + (Ended(es[1..]) + Ended(fs)) == (head + Ended(es[1..])) + Ended(fs);
    }
  }

  lemma {:induction false} BytesAppend(es: seq<Entry>, fs: seq<Entry>)
    ensures Bytes(es + fs) == Bytes(es) + Bytes(fs)
    decreases |es|
  {
    if es == [] {
      assert es + fs == fs;
    } else {
      BytesAppend(es[1..], fs);
      assert (es + fs)[1..] == es[1..] + fs;
    }
  }

  // ----- states and events ---------------------------------------------------------------------------------------

  /** The write queue, whether its begin-transfer event is scheduled, and a record: requests accepted, segments
      completed and callbacks made. */
  datatype Fifo = Fifo(
    wait: seq<Entry>, transfer: seq<Entry>, usage: nat,
    insertPending: bool, transferPending: bool, beginScheduled: bool,
    accepted: seq<Request>, done: seq<Entry>, fired: seq<nat>)

  const Idle: Fifo := Fifo([], [], 0, false, false, false, [], [], [])

  /** Waiting segments that are not yet in the transfer queue. */
  function Fresh(s: Fifo): seq<Entry> {
    if s.insertPending && s.wait != [] then s.wait[1..] else s.wait
  }

  predicate Fits(p: Param, es: seq<Entry>)
    requires p.Valid()
  {
    forall i :: 0 <= i < |es| ==> Rounded(p, es[i].size) <= p.capacity
  }

  predicate Whole(es: seq<Entry>) {
    forall i :: 0 <= i < |es| ==> es[i].last && 0 < es[i].size
  }

  ghost predicate Inv(p: Param, s: Fifo) {
    && p.Valid()
    && Assembles(s.done + s.transfer + Fresh(s), s.accepted)
    && Whole(Fresh(s))
    && Fits(p, s.done) && Fits(p, s.transfer)
    && s.usage == Load(p, s.transfer)
    && s.fired == Ended(s.done)
    && (forall i :: 0 <= i < |s.accepted| ==> s.accepted[i].id == i)
    && (s.insertPending ==> s.wait != [] && Rounded(p, s.wait[0].size) <= p.capacity)
    && (s.transferPending ==> s.transfer != [])
    && (s.beginScheduled ==> |s.transfer| > if s.transferPending then 1 else 0)
    && (s.transfer != [] ==> s.transferPending || s.beginScheduled)
  }

  /** A request that is not being inserted waits for room, and for nothing else. */
  ghost predicate Blocked(p: Param, s: Fifo)
    requires p.Valid()
  {
    s.wait != [] && !s.insertPending ==>
      Rounded(p, s.wait[0].size) <= p.capacity < s.usage + Rounded(p, s.wait[0].size)
  }

  /** A request larger than the queue is cut after one transfer unit. */
  function SplitHead(p: Param, s: Fifo): Fifo
    requires s.wait != [] && p.unit <= s.wait[0].size
  {
    s.(wait := [First(s.wait[0], p.unit), Second(s.wait[0], p.unit)] + s.wait[1..])
  }

  function PushHead(p: Param, s: Fifo): Fifo
    requires p.Valid() && s.wait != []
  {
    s.(insertPending := true, usage := s.usage + Rounded(p, s.wait[0].size), beginScheduled := true,
       transfer := s.transfer + [s.wait[0]])
  }

  /** insertWrite */
  function InsertWrite(p: Param, s: Fifo): Fifo
    requires p.Valid() && s.wait != []
  {
    var size := Rounded(p, s.wait[0].size);
    if (s.insertPending || s.usage + size > p.capacity) && size <= p.capacity then s
    else if size > p.capacity then RoundedBounds(p, s.wait[0].size); PushHead(p, SplitHead(p, s))
    else PushHead(p, s)
  }

  /** dmaWrite; an empty request is ignored. */
  function DmaWrite(p: Param, s: Fifo, addr: nat, buffer: Option<nat>, size: nat): Fifo
    requires p.Valid()
  {
    if size == 0 then s
    else
      var id := |s.accepted|;
      InsertWrite(p, s.(wait := s.wait + [Entry(id, addr, buffer, size, true)],
                        accepted := s.accepted + [Request(id, addr, buffer, size)]))
  }

  /** insertWriteDone */
  function InsertDone(p: Param, s: Fifo): Fifo
    requires p.Valid() && s.insertPending && s.wait != []
  {
    var s1 := s.(wait := s.wait[1..], insertPending := false);
    if s1.wait == [] then s1 else InsertWrite(p, s1)
  }

  /** The begin-transfer event fires. */
  function BeginTransfer(s: Fifo): Fifo {
    s.(beginScheduled := false, transferPending := true)
  }

  /** transferWriteDoneNext after its callback, up to its search for more work. */
  function Pop(p: Param, s: Fifo): Fifo
    requires p.Valid() && s.transfer != [] && Rounded(p, s.transfer[0].size) <= s.usage
  {
    var e := s.transfer[0];
    var rest := s.transfer[1..];
    s.(usage := s.usage - Rounded(p, e.size), transfer := rest, done := s.done + [e],
       fired := s.fired + (if e.last then [e.id] else []), transferPending := rest != [] && !s.beginScheduled)
  }

  /** transferWriteDoneNext after its callback. */
  function Complete(p: Param, s: Fifo): Fifo
    requires p.Valid() && s.transfer != [] && Rounded(p, s.transfer[0].size) <= s.usage
  {
    if s.wait == [] then Pop(p, s) else InsertWrite(p, Pop(p, s))
  }

  // ----- every event keeps the invariant ----------------------------------------------------------------------

  lemma LoadSnoc(p: Param, es: seq<Entry>, e: Entry)
    requires p.Valid()
    ensures Load(p, es + [e]) == Load(p, es) + Rounded(p, e.size)
  {
    assert (es + [e])[..|es|] == es;
  }

  /** A head that fits enters the transfer queue. */
  lemma PushKeeps(p: Param, s: Fifo)
    requires Inv(p, s) && s.wait != [] && !s.insertPending && Rounded(p, s.wait[0].size) <= p.capacity
    ensures Inv(p, PushHead(p, s))
  {
    hide Rounded, Load, Assembles, Ended;
    LoadSnoc(p, s.transfer, s.wait[0]);
    assert s.done + s.transfer + s.wait == s.done + (s.transfer + [s.wait[0]]) + s.wait[1..];
  }

  /** A head that does not fit is cut, and its first unit enters the transfer queue. */
  lemma SplitKeeps(p: Param, s: Fifo)
    requires Inv(p, s) && s.wait != [] && !s.insertPending && Rounded(p, s.wait[0].size) > p.capacity
    ensures s.wait[0].size > p.unit && Inv(p, PushHead(p, SplitHead(p, s)))
  {
    hide Rounded, Load, Assembles, Ended;
    RoundedBounds(p, s.wait[0].size);
    RoundedBounds(p, p.unit);
    var e, n, todo := s.wait[0], p.unit, s.wait[1..];
    var ready := s.done + s.transfer;
    assert ready + s.wait == ready + [e] + todo;
    AssemblesSplit(ready, e, todo, s.accepted, n);
    LoadSnoc(p, s.transfer, First(e, n));
    var s' := PushHead(p, SplitHead(p, s));
    assert s'.wait[1..] == [Second(e, n)] + todo;
    assert s'.done + s'.transfer + Fresh(s') == ready + [First(e, n)] + ([Second(e, n)] + todo);
  }

  /** A segment whose insertion is under way is never split, and nothing else is inserted meanwhile. */
  lemma PendingIsNotSplit(p: Param, s: Fifo)
    requires Inv(p, s) && s.insertPending
    ensures InsertWrite(p, s) == s
  {
  }

  lemma InsertKeeps(p: Param, s: Fifo)
    requires Inv(p, s) && s.wait != []
    ensures Inv(p, InsertWrite(p, s)) && Blocked(p, InsertWrite(p, s))
  {
    hide Assembles, Load, Ended, Rounded;
    var size := Rounded(p, s.wait[0].size);
    if s.insertPending {
      PendingIsNotSplit(p, s);
    } else if size > p.capacity {
      SplitKeeps(p, s);
    } else if s.usage + size <= p.capacity {
      PushKeeps(p, s);
    }
  }

  /** Inserting accepts nothing new. */
  lemma InsertRecords(p: Param)
    requires p.Valid()
    ensures forall s: Fifo {:trigger InsertWrite(p, s)} :: s.wait != [] ==> InsertWrite(p, s).accepted == s.accepted
  {
    hide Rounded;
  }

  lemma DmaWriteKeeps(p: Param, s: Fifo, addr: nat, buffer: Option<nat>, size: nat)
    requires Inv(p, s) && Blocked(p, s)
    ensures Inv(p, DmaWrite(p, s, addr, buffer, size)) && Blocked(p, DmaWrite(p, s, addr, buffer, size))
  {
    hide Assembles, Load, Ended, Rounded;
    if size != 0 {
      var id := |s.accepted|;
      var r, e := Request(id, addr, buffer, size), Entry(id, addr, buffer, size, true);
      var s1 := s.(wait := s.wait + [e], accepted := s.accepted + [r]);
      AssemblesAppend(s.done + s.transfer + Fresh(s), s.accepted, r);
      assert Fresh(s1) == Fresh(s) + [e];
      assert s.done + s.transfer + Fresh(s) + [e] == s1.done + s1.transfer + Fresh(s1);
      InsertKeeps(p, s1);
    }
  }

  lemma InsertDoneKeeps(p: Param, s: Fifo)
    requires Inv(p, s) && s.insertPending
    ensures Inv(p, InsertDone(p, s)) && Blocked(p, InsertDone(p, s))
  {
    hide Assembles, Load, Ended, Rounded;
    var s1 := s.(wait := s.wait[1..], insertPending := false);
    assert Fresh(s1) == Fresh(s);
    if s1.wait != [] { InsertKeeps(p, s1); }
  }

  lemma BeginKeeps(p: Param, s: Fifo)
    requires Inv(p, s) && Blocked(p, s) && s.beginScheduled
    ensures Inv(p, BeginTransfer(s)) && Blocked(p, BeginTransfer(s))
  {
    hide Assembles, Load, Ended, Rounded;
    assert Fresh(BeginTransfer(s)) == Fresh(s);
  }

  lemma EndedSnoc(es: seq<Entry>, e: Entry)
    ensures Ended(es + [e]) == Ended(es) + if e.last then [e.id] else []
  {
    EndedAppend(es, [e]);
    assert Ended([e]) == if e.last then [e.id] else [];
  }

  lemma PopKeeps(p: Param, s: Fifo)
    requires Inv(p, s) && s.transferPending
    ensures Rounded(p, s.transfer[0].size) <= s.usage && Inv(p, Pop(p, s))
  {
    hide Assembles, Load, Ended, Rounded;
    LoadHead(p, s.transfer);
    EndedSnoc(s.done, s.transfer[0]);
    assert s.done + s.transfer == (s.done + [s.transfer[0]]) + s.transfer[1..];
    assert Fresh(Pop(p, s)) == Fresh(s);
  }

  lemma CompleteKeeps(p: Param, s: Fifo)
    requires Inv(p, s) && Blocked(p, s) && s.transferPending
    ensures Rounded(p, s.transfer[0].size) <= s.usage
    ensures Inv(p, Complete(p, s)) && Blocked(p, Complete(p, s))
  {
    hide Rounded, InsertWrite, Assembles, Load, Ended, Fits, Whole;
    PopKeeps(p, s);
    if s.wait != [] { InsertKeeps(p, Pop(p, s)); }
  }

  // ----- whole runs ------------------------------------------------------------------------------------------------

  datatype Call = Call(addr: nat, buffer: Option<nat>, size: nat)

  /** Writes that a completion callback makes before it returns. */
  function Calls(p: Param, s: Fifo, calls: seq<Call>): Fifo
    requires p.Valid()
    decreases |calls|
  {
    if calls == [] then s
    else
      var k := calls[|calls| - 1];
      DmaWrite(p, Calls(p, s, calls[..|calls| - 1]), k.addr, k.buffer, k.size)
  }

  lemma {:induction false} CallsKeep(p: Param, s: Fifo, calls: seq<Call>)
    requires Inv(p, s) && Blocked(p, s) && s.transferPending
    ensures var r := Calls(p, s, calls);
            Inv(p, r) && Blocked(p, r) && r.transferPending && r.transfer != [] && r.transfer[0] == s.transfer[0]
    decreases |calls|
  {
    hide Assembles, Load, Ended, Rounded, Fits, Whole, Blocked;
    if calls != [] {
      var k := calls[|calls| - 1];
      CallsKeep(p, s, calls[..|calls| - 1]);
      DmaWriteKeeps(p, Calls(p, s, calls[..|calls| - 1]), k.addr, k.buffer, k.size);
    }
  }

  datatype Event = Write(call: Call) | InsertEnds | TransferBegins | TransferEnds(calls: seq<Call>)

  predicate Enabled(s: Fifo, e: Event) {
    match e
    case Write(_) => true
    case InsertEnds => s.insertPending
    case TransferBegins => s.beginScheduled
    case TransferEnds(_) => s.transferPending
  }

  /** An event; the callback of a request runs when its last segment ends. */
  function Step(p: Param, s: Fifo, e: Event): (r: Fifo)
    requires Inv(p, s) && Blocked(p, s)
    ensures Inv(p, r) && Blocked(p, r)
  {
    if !Enabled(s, e) then s
    else
      match e
      case Write(k) => DmaWriteKeeps(p, s, k.addr, k.buffer, k.size); DmaWrite(p, s, k.addr, k.buffer, k.size)
      case InsertEnds => InsertDoneKeeps(p, s); InsertDone(p, s)
      case TransferBegins => BeginKeeps(p, s); BeginTransfer(s)
      case TransferEnds(calls) =>
        CallsKeep(p, s, calls);
        CompleteKeeps(p, s);
        var s1 := if s.transfer[0].last then Calls(p, s, calls) else s;
        CompleteKeeps(p, s1);
        Complete(p, s1)
  }

  function Run(p: Param, events: seq<Event>): (r: Fifo)
    requires p.Valid()
    ensures Inv(p, r) && Blocked(p, r)
    decreases |events|
  {
    if events == [] then IdleIsValid(p); Idle
    else Step(p, Run(p, events[..|events| - 1]), events[|events| - 1])
  }

  lemma IdleIsValid(p: Param)
    requires p.Valid()
    ensures Inv(p, Idle) && Blocked(p, Idle)
  {
    assert [] + [] + Fresh(Idle) == [];
  }

  /** When a request has ended, all bytes up to its end have been written. */
  lemma {:induction false} EndedAfterBytes(es: seq<Entry>, todo: seq<Entry>, rs: seq<Request>)
    requires Assembles(es + todo, rs)
    ensures |Ended(es)| <= |rs| && |Asked(rs[..|Ended(es)|])| <= |Bytes(es)|
    decreases |es|
  {
    if es != [] {
      var e, r := es[0], rs[0];
      assert (es + todo)[1..] == es[1..] + todo;
      if e.last {
        EndedAfterBytes(es[1..], todo, rs[1..]);
        var n := |Ended(es[1..])|;
        assert |Ended(es)| == n + 1;
        assert rs[..n + 1][1..] == rs[1..][..n];
      } else {
        var rs' := [Rest(r, e.size)] + rs[1..];
        EndedAfterBytes(es[1..], todo, rs');
        var n := |Ended(es)|;
        assert n == |Ended(es[1..])|;
        if n > 0 {
          assert rs'[..n][1..] == rs[..n][1..];
        } else {
          assert rs[..n] == [];
        }
      }
    }
  }

  /** After any run: the bytes written so far are the first bytes asked for, each once and in order; callbacks
      were made for the first requests, once each and in order; and each of those requests is written. */
  lemma WritesAreTiled(p: Param, events: seq<Event>)
    requires p.Valid()
    ensures var s := Run(p, events);
            && Bytes(s.done) + Bytes(s.transfer + Fresh(s)) == Asked(s.accepted)
            && (forall k :: 0 <= k < |s.fired| ==> s.fired[k] == k)
            && |s.fired| <= |s.accepted| && |Asked(s.accepted[..|s.fired|])| <= |Bytes(s.done)|
            && s.usage == Load(p, s.transfer)
  {
    hide Bytes, Asked, Ended, Assembles, Load, Run, Blocked, Fits, Whole;
    var s := Run(p, events);
    var todo := s.transfer + Fresh(s);
    assert s.done + s.transfer + Fresh(s) == s.done + todo;
    AssemblesMeans(s.done + todo, s.accepted);
    BytesAppend(s.done, todo);
    EndedAppend(s.done, todo);
    EndedAfterBytes(s.done, todo, s.accepted);
    assert forall k :: 0 <= k < |s.fired| ==> s.fired[k] == Ids(s.accepted)[k];
  }

  /** When no event is outstanding, everything accepted is written and every callback was made: requests never
      get stuck. */
  lemma QuietMeansDelivered(p: Param, events: seq<Event>)
    requires p.Valid()
    requires var s := Run(p, events); !s.insertPending && !s.beginScheduled && !s.transferPending
    ensures var s := Run(p, events);
            s.wait == [] && s.transfer == [] && Bytes(s.done) == Asked(s.accepted) && s.fired == Ids(s.accepted)
  {
    hide Bytes, Asked, Ended, Assembles, Run;
    var s := Run(p, events);
    assert s.transfer == [] && s.usage == 0 && s.wait == [];
    assert s.done + s.transfer + Fresh(s) == s.done;
    AssemblesMeans(s.done, s.accepted);
  }
}
