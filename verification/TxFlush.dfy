/**
 Flushing one half of the transmit queue: packets are copied into buffers, batched and
 handed to the driver until it has taken them all, the thread is told to give up or no
 buffer can be allocated.

 Buffer `k` carries packet `k`.  `refs[k]` is its reference count; a transmission attempt costs
 every buffer of the batch one reference, whatever the driver does.  The driver, the
 allocator, the clock and the request to give up are an arbitrary finite list of
 events, after which nothing can be allocated and the thread is told to give up.
 */
module TxFlush {

  const SHORT_BATCH: nat := 64

  /** The first `n` numbers. */
  function Upto(n: nat): seq<nat> { seq(n, i => i) }

  function From(first: nat, n: nat): seq<nat> { seq(n, i => first + i) }

  // ------------------------------------------------------------------- the batch

  class Batch {
    const queue: array<nat>
    var len: nat

    ghost predicate Valid()
      reads this
    {
      queue.Length == SHORT_BATCH && len <= SHORT_BATCH
    }

    ghost function Contents(): seq<nat>
      requires Valid()
      reads this, queue
    {
      queue[..len]
    }

    constructor ()
      ensures Valid() && Contents() == [] && fresh(queue)
    {
      queue := new nat[SHORT_BATCH];
      len := 0;
    }

    method Push(skb: nat) returns (ok: bool)
      requires Valid()
      modifies this, queue
      ensures Valid() && ok == (old(len) < SHORT_BATCH)
      ensures Contents() == if ok then old(Contents()) + [skb] else old(Contents())
    {
      ok := len < SHORT_BATCH;
      if ok {
        queue[len] := skb;
        len := len + 1;
      }
    }

    /** Drops the first `n` buffers, or all of them, shifting the others down in place. */
    method DropN(n: nat)
      requires Valid()
      modifies this, queue
      ensures Valid()
      ensures Contents() == if n <= old(len) then old(Contents())[n..] else []
    {
      var k := if n > len then len else n;
      ghost var was := queue[..];
      var i := 0;
      while i < len - k
        invariant 0 <= i <= len - k && len == old(len)
        invariant forall j :: 0 <= j < i ==> queue[j] == was[j + k]
        invariant forall j :: i <= j < queue.Length ==> queue[j] == was[j]
      {
        queue[i] := queue[i + k];
        i := i + 1;
      }
      len := len - k;
      assert forall j :: 0 <= j < len ==> queue[..len][j] == was[j + k];
    }
  }

  // ------------------------------------------------------------------- the driver

  const NET_XMIT_MASK: int := 0x0f
  const ENETDOWN: int := 100

  /** What one transmission meets: the link down, the queue stopped, or the driver's answer. */
  datatype Outcome = Down | Stopped | Answer(rc: int)

  function Outcomes(os: seq<Outcome>, i: nat): Outcome
  {
    if i < |os| then os[i] else Stopped
  }

  /** How many buffers of a batch of `n` the driver takes before the first it does not. */
  function Taken(os: seq<Outcome>, n: nat): (k: nat)
    ensures k <= n
    ensures forall i :: 0 <= i < k ==> Outcomes(os, i) == Answer(0)
    ensures k < n ==> Outcomes(os, k) != Answer(0)
  {
    TakenFrom(os, 0, n)
  }

  function TakenFrom(os: seq<Outcome>, i: nat, n: nat): (k: nat)
    requires i <= n
    ensures i <= k <= n
    ensures forall j :: i <= j < k ==> Outcomes(os, j) == Answer(0)
    ensures k < n ==> Outcomes(os, k) != Answer(0)
    decreases n - i
  {
    if i == n || Outcomes(os, i) != Answer(0) then i else TakenFrom(os, i + 1, n)
  }

  /** One attempt: a driver that answers below the mask has consumed the buffer, otherwise it is
      freed here; either way one reference is gone. */
  method Xmit(refs: seq<nat>, skb: nat, o: Outcome) returns (rc: int, left: seq<nat>)
    requires skb < |refs| && refs[skb] > 0
    ensures left == refs[skb := refs[skb] - 1]
    ensures rc == 0 <==> o == Answer(0)
  {
    if o.Answer? && o.rc < NET_XMIT_MASK {
      left := refs[skb := refs[skb] - 1];
      return o.rc, left;
    }
    left := refs[skb := refs[skb] - 1];
    rc := -ENETDOWN;
  }

  /** `after` has exactly one reference less on each of the `n` buffers from `first`. */
  predicate OneLess(refs: seq<nat>, after: seq<nat>, first: nat, n: nat)
  {
    && |after| == |refs|
    && forall k :: 0 <= k < |refs| ==> refs[k] == if first <= k < first + n then after[k] + 1 else after[k]
  }

  /** The buffers from `first` on hold `c` references each, those before it none. */
  predicate Holding(refs: seq<nat>, first: nat, c: nat)
  {
    first <= |refs| && forall k :: 0 <= k < |refs| ==> refs[k] == if k < first then 0 else c
  }

  method BatchAttempt(batch: Batch, first: nat, refs: seq<nat>, os: seq<Outcome>)
    returns (ret: nat, left: seq<nat>, wire: seq<nat>)
    requires batch.Valid() && batch.Contents() == From(first, batch.len) && first + batch.len == |refs|
    requires Holding(refs, first, 2)
    ensures ret == Taken(os, batch.len) && wire == From(first, ret)
    ensures Holding(left, first, 1) && |left| == |refs|
  {
    left, wire := refs, [];
    ret := 0;
    var n := 0;
    while n < batch.len
      invariant 0 <= n <= batch.len && ret == n && wire == From(first, n)
      invariant Taken(os, batch.len) == TakenFrom(os, n, batch.len)
      invariant OneLess(refs, left, first, n)
    {
      assert batch.queue[n] == batch.Contents()[n] == first + n;
      var rc;
      rc, left := Xmit(left, batch.queue[n], Outcomes(os, n));
      if rc == 0 {
        wire := wire + [batch.queue[n]];
      }
      n := n + 1;
      if rc == 0 {
        ret := ret + 1;
      } else {
        break;
      }
    }
    while n < batch.len
      invariant 0 <= n <= batch.len && OneLess(refs, left, first, n)
    {
      assert batch.queue[n] == batch.Contents()[n] == first + n;
      left := left[batch.queue[n] := left[batch.queue[n]] - 1];
      n := n + 1;
    }
  }

  method FreeFirst(batch: Batch, first: nat, n: nat, refs: seq<nat>) returns (left: seq<nat>, freed: seq<nat>)
    requires batch.Valid() && batch.Contents() == From(first, batch.len) && first + batch.len == |refs|
    requires n <= batch.len && Holding(refs, first, 1)
    ensures Holding(left, first + n, 1) && |left| == |refs| && freed == From(first, n)
  {
    left, freed := refs, [];
    var i := 0;
    while i < n
      invariant 0 <= i <= n && |left| == |refs| && freed == From(first, i) && Holding(left, first + i, 1)
    {
      assert batch.queue[i] == batch.Contents()[i] == first + i;
      left := left[batch.queue[i] := left[batch.queue[i]] - 1];
      freed := freed + [batch.queue[i]];
      i := i + 1;
    }
  }

  method GetAll(batch: Batch, first: nat, refs: seq<nat>) returns (left: seq<nat>)
    requires batch.Valid() && batch.Contents() == From(first, batch.len) && first + batch.len == |refs|
    requires Holding(refs, first, 1)
    ensures Holding(left, first, 2) && |left| == |refs|
  {
    left := refs;
    var i := 0;
    while i < batch.len
      invariant 0 <= i <= batch.len && OneLess(left, refs, first, i)
    {
      assert batch.queue[i] == batch.Contents()[i] == first + i;
      left := left[batch.queue[i] := left[batch.queue[i]] + 1];
      i := i + 1;
    }
  }

  /** Frees the buffers the driver took, drops them from the batch and takes a reference on the
      others, which will be tried again. */
  method BatchXmit(batch: Batch, first: nat, refs: seq<nat>, os: seq<Outcome>)
    returns (sent: nat, left: seq<nat>, freed: seq<nat>, wire: seq<nat>)
    requires batch.Valid() && batch.Contents() == From(first, batch.len) && first + batch.len == |refs|
    requires Holding(refs, first, 2)
    modifies batch, batch.queue
    ensures batch.Valid() && sent == Taken(os, old(batch.len)) && batch.len == old(batch.len) - sent
    ensures batch.Contents() == From(first + sent, batch.len)
    ensures freed == From(first, sent) && wire == From(first, sent)
    ensures Holding(left, first + sent, 2) && |left| == |refs|
  {
    sent, left, wire := BatchAttempt(batch, first, refs, os);
    left, freed := FreeFirst(batch, first, sent, left);
    batch.DropN(sent);
    assert batch.Contents() == From(first + sent, batch.len);
    left := GetAll(batch, first + sent, left);
  }

  // ----------------------------------------------------------------------- the flush

  /** What one turn of the loop meets: whether the packet's time has not come, how the driver
      answers, whether the thread is told to give up, whether a buffer can be allocated. */
  datatype Event = Event(early: bool, outcomes: seq<Outcome>, giveUp: bool, alloc: bool)

  const LAST := Event(false, [], true, false)

  /** Nothing in the events makes the flush stop early. */
  predicate Undisturbed(events: seq<Event>)
  {
    forall i :: 0 <= i < |events| ==> !events[i].giveUp && events[i].alloc
  }

  /** The driver takes every buffer of every batch. */
  predicate Willing(events: seq<Event>)
  {
    forall i, k :: 0 <= i < |events| && 0 <= k < SHORT_BATCH ==> Outcomes(events[i].outcomes, k) == Answer(0)
  }

  // ------------------------------------------------------- how far a flush gets

  function Head(events: seq<Event>): Event
  {
    if events == [] then LAST else events[0]
  }

  function Tail(events: seq<Event>): seq<Event>
  {
    if events == [] then [] else events[1..]
  }

  /** How far a flush has got: packets sent, packets batched so far, events to come. */
  datatype Progress = Progress(sent: nat, pos: nat, rest: seq<Event>)

  /** One turn of the filling loop; `stop` if it is the last. */
  datatype Turn = Turn(sent: nat, pos: nat, stop: bool)

  function FillTurn(sent: nat, pos: nat, batchLen: nat, e: Event): (t: Turn)
    requires sent <= pos
    ensures sent <= t.sent <= t.pos && pos <= t.pos <= pos + 1
    ensures 0 < batchLen && pos - sent <= batchLen ==> t.pos - t.sent <= batchLen
  {
    if pos - sent == batchLen || (pos > sent && e.early) then
      var k := Taken(e.outcomes, pos - sent);
      if e.giveUp then Turn(sent + k, pos, true)
      else if k == 0 then Turn(sent, pos, false)
      else if e.alloc then Turn(sent + k, pos + 1, false)
      else Turn(sent + k, pos, true)
    else if e.alloc then Turn(sent, pos + 1, false)
    else Turn(sent, pos, true)
  }

  /** The batch is handed to the driver exactly when it is full or holds something and the next packet
      is early; a packet is batched in every turn but those in which the driver took nothing, the
      thread was told to give up or the allocation failed, and the last two end the loop. */
  lemma TurnIff(sent: nat, pos: nat, batchLen: nat, e: Event)
    requires sent <= pos && 0 < batchLen
    ensures var t, due := FillTurn(sent, pos, batchLen, e), pos - sent == batchLen || (sent < pos && e.early);
            && t.sent == sent + (if due then Taken(e.outcomes, pos - sent) else 0)
            && (t.pos == pos + 1 <==> !t.stop && (due ==> t.sent > sent))
            && (t.stop <==> (due && e.giveUp) || ((due ==> t.sent > sent) && !e.alloc))
  {
  }

  /** Filling the batch from packet `pos` on, with those before `sent` sent. */
  function Filled(sent: nat, pos: nat, count: nat, batchLen: nat, events: seq<Event>): (r: Progress)
    requires sent <= pos
    ensures r.sent <= r.pos && (pos <= count ==> pos <= r.pos <= count)
    decreases |events|
  {
    if pos >= count then Progress(sent, pos, events)
    else
      var t := FillTurn(sent, pos, batchLen, Head(events));
      if t.stop then Progress(t.sent, t.pos, Tail(events)) else Filled(t.sent, t.pos, count, batchLen, Tail(events))
  }

  /** Transmitting what is batched. */
  function Drained(sent: nat, pos: nat, events: seq<Event>): (r: Progress)
    requires sent <= pos
    ensures sent <= r.sent <= r.pos == pos
    decreases |events|
  {
    if sent == pos then Progress(sent, pos, events)
    else
      var e, k := Head(events), Taken(Head(events).outcomes, pos - sent);
      if e.giveUp then Progress(sent + k, pos, Tail(events)) else Drained(sent + k, pos, Tail(events))
  }

  function Flushed(count: nat, batchLen: nat, events: seq<Event>): (r: Progress)
    ensures r.sent <= r.pos <= count
  {
    var f := Filled(0, 0, count, batchLen, events);
    Drained(f.sent, f.pos, f.rest)
  }

  /** The thread is never told to give up. */
  predicate Patient(events: seq<Event>)
  {
    forall i :: 0 <= i < |events| ==> !events[i].giveUp
  }

  /** How many of `n` packets get a buffer if each is asked for once. */
  function Allocated(events: seq<Event>, n: nat): (k: nat)
    ensures k <= n && k <= |events| && (forall i :: 0 <= i < k ==> events[i].alloc)
    ensures k < n && k < |events| ==> !events[k].alloc
  {
    if n == 0 || events == [] || !events[0].alloc then 0 else
      assert forall i :: 0 <= i < |events[1..]| ==> events[1..][i] == events[i + 1];
      1 + Allocated(events[1..], n - 1)
  }

  /** The events left after filling are among those it started with; without a failed allocation
      filling goes to the end, unless they run out. */
  lemma {:induction false} FillsOn(sent: nat, pos: nat, count: nat, batchLen: nat, events: seq<Event>)
    requires sent <= pos <= count
    ensures var r := Filled(sent, pos, count, batchLen, events);
            && (Patient(events) ==> Patient(r.rest)) && (Undisturbed(events) && r.rest != [] ==> r.pos == count)
    decreases |events|
  {
    if pos < count {
      var t := FillTurn(sent, pos, batchLen, Head(events));
      if !t.stop {
        FillsOn(t.sent, t.pos, count, batchLen, Tail(events));
      }
    }
  }

  lemma {:induction false} DrainsPatient(sent: nat, pos: nat, events: seq<Event>)
    requires sent <= pos && Patient(events) && Drained(sent, pos, events).rest != []
    ensures Drained(sent, pos, events).sent == pos
    decreases |events|
  {
    hide TakenFrom;
    if sent < pos {
      var e, rest := Head(events), Tail(events);
      assert events != [] && !e.giveUp;
      assert forall i :: 0 <= i < |rest| ==> rest[i] == events[i + 1];
      DrainsPatient(sent + Taken(e.outcomes, pos - sent), pos, rest);
    }
  }

  /** Whatever fails to be allocated and however often the driver refuses: if the thread is not told to
      give up and events are left, every packet that got a buffer is sent. */
  lemma {:induction false} PatientSendsBatched(count: nat, batchLen: nat, events: seq<Event>)
    requires 0 < batchLen && Patient(events) && Flushed(count, batchLen, events).rest != []
    ensures var r := Flushed(count, batchLen, events); r.sent == r.pos
  {
    var f := Filled(0, 0, count, batchLen, events);
    FillsOn(0, 0, count, batchLen, events);
    DrainsPatient(f.sent, f.pos, f.rest);
  }

  lemma TakesAll(os: seq<Outcome>, n: nat)
    requires forall k :: 0 <= k < n ==> Outcomes(os, k) == Answer(0)
    ensures Taken(os, n) == n
  {
  }

  lemma {:induction false} WillingFills(sent: nat, pos: nat, count: nat, batchLen: nat, events: seq<Event>)
    requires sent <= pos <= count && pos - sent <= batchLen <= SHORT_BATCH && 0 < batchLen
    requires Patient(events) && Willing(events) && |events| > count - pos
    ensures var r := Filled(sent, pos, count, batchLen, events);
            && r.pos == pos + Allocated(events, count - pos) && r.rest != [] && r.pos - r.sent <= SHORT_BATCH
            && Patient(r.rest) && Willing(r.rest)
    decreases count - pos
  {
    if pos < count {
      var e, rest := events[0], events[1..];
      assert forall i :: 0 <= i < |rest| ==> rest[i] == events[i + 1];
      WillingTurn(sent, pos, batchLen, e);
      hide FillTurn;
      if e.alloc {
        WillingFills(FillTurn(sent, pos, batchLen, e).sent, pos + 1, count, batchLen, rest);
      }
    }
  }

  lemma WillingTurn(sent: nat, pos: nat, batchLen: nat, e: Event)
    requires sent <= pos && pos - sent <= batchLen && 0 < batchLen
    requires !e.giveUp && forall k :: 0 <= k < pos - sent ==> Outcomes(e.outcomes, k) == Answer(0)
    ensures var t := FillTurn(sent, pos, batchLen, e); t.stop == !e.alloc && t.pos == if e.alloc then pos + 1 else pos
  {
    TakesAll(e.outcomes, pos - sent);
  }

  /** With a willing driver exactly the packets before the first failed allocation are sent, those
      batched when it failed included. */
  lemma {:induction false} WillingSends(count: nat, batchLen: nat, events: seq<Event>)
    requires 0 < batchLen <= SHORT_BATCH && Patient(events) && Willing(events) && |events| > count
    ensures var r := Flushed(count, batchLen, events); r.sent == r.pos == Allocated(events, count)
  {
    WillingFills(0, 0, count, batchLen, events);
    var f := Filled(0, 0, count, batchLen, events);
    TakesAll(f.rest[0].outcomes, f.pos - f.sent);
  }

  /** Undisturbed, all packets are sent unless the events run out, and they do not run out on a willing
      driver. */
  lemma {:induction false} UndisturbedSends(count: nat, batchLen: nat, events: seq<Event>)
    requires 0 < batchLen <= SHORT_BATCH && Undisturbed(events)
    ensures var r := Flushed(count, batchLen, events);
            r.rest != [] || (Willing(events) && |events| > count) ==> r.sent == count
  {
    var r, f := Flushed(count, batchLen, events), Filled(0, 0, count, batchLen, events);
    FillsOn(0, 0, count, batchLen, events);
    if r.rest != [] {
      PatientSendsBatched(count, batchLen, events);
      DrainsFewer(f.sent, f.pos, f.rest);
    } else if Willing(events) && |events| > count {
      WillingSends(count, batchLen, events);
    }
  }

  lemma {:induction false} DrainsFewer(sent: nat, pos: nat, events: seq<Event>)
    requires sent <= pos
    ensures |Drained(sent, pos, events).rest| <= |events|
    decreases |events|
  {
    if sent < pos && !Head(events).giveUp {
      DrainsFewer(sent + Taken(Head(events).outcomes, pos - sent), pos, Tail(events));
    }
  }

  /** Told to give up, the flush still makes one attempt with what is batched, and only one. */
  lemma {:induction false} LastAttempt(sent: nat, pos: nat, events: seq<Event>)
    requires sent <= pos
    ensures var r, k := Drained(sent, pos, events), Taken(Head(events).outcomes, pos - sent);
            && r.sent >= sent + k && (Head(events).giveUp ==> r.sent == sent + k)
            && (r.sent < pos && Patient(events) ==> r.rest == [])
  {
    if sent < pos && Patient(events) && Drained(sent, pos, events).rest != [] {
      DrainsPatient(sent, pos, events);
    }
  }

  // ---------------------------------------------------------------- the loops

  /** The state between two turns: packets below `sent` are on the wire and their buffers freed,
      those from `sent` to `pos` are batched with two references each. */
  ghost predicate Flushing(batch: Batch, refs: seq<nat>, freed: seq<nat>, wire: seq<nat>, sent: nat, pos: nat)
    reads batch, batch.queue
  {
    && batch.Valid() && batch.len == pos - sent && batch.Contents() == From(sent, pos - sent)
    && |refs| == pos && Holding(refs, sent, 2) && freed == Upto(sent) && wire == Upto(sent)
  }

  /** One attempt to transmit the batch. */
  method Transmit(batch: Batch, sent: nat, pos: nat, refs0: seq<nat>, freed0: seq<nat>, wire0: seq<nat>, os: seq<Outcome>)
    returns (k: nat, refs: seq<nat>, freed: seq<nat>, wire: seq<nat>)
    requires sent <= pos && Flushing(batch, refs0, freed0, wire0, sent, pos)
    modifies batch, batch.queue
    ensures k == Taken(os, pos - sent) && Flushing(batch, refs, freed, wire, sent + k, pos)
  {
    var gone, out;
    k, refs, gone, out := BatchXmit(batch, sent, refs0, os);
    freed, wire := freed0 + gone, wire0 + out;
    assert Upto(sent) + From(sent, k) == Upto(sent + k);
  }

  /** A new buffer with a second reference joins the batch: the push cannot fail. */
  method Enqueue(batch: Batch, sent: nat, pos: nat, refs0: seq<nat>, ghost freed: seq<nat>, ghost wire: seq<nat>)
    returns (refs: seq<nat>)
    requires sent <= pos && Flushing(batch, refs0, freed, wire, sent, pos) && batch.len < SHORT_BATCH
    modifies batch, batch.queue
    ensures Flushing(batch, refs, freed, wire, sent, pos + 1)
  {
    var ok := batch.Push(pos);
    assert ok;
    refs := refs0 + [1];
    refs := refs[pos := refs[pos] + 1];
    assert From(sent, pos - sent) + [pos] == From(sent, pos + 1 - sent);
  }

  /** One turn: transmits the batch if it is full or the packet early, then adds the packet. */
  method FillOne(batch: Batch, sent0: nat, pos0: nat, batchLen: nat, refs0: seq<nat>, freed0: seq<nat>, wire0: seq<nat>, e: Event)
    returns (sent: nat, pos: nat, refs: seq<nat>, freed: seq<nat>, wire: seq<nat>, stop: bool)
    requires sent0 <= pos0 && Flushing(batch, refs0, freed0, wire0, sent0, pos0) && batch.len <= batchLen <= SHORT_BATCH && 0 < batchLen
    modifies batch, batch.queue
    ensures Turn(sent, pos, stop) == FillTurn(sent0, pos0, batchLen, e)
    ensures Flushing(batch, refs, freed, wire, sent, pos)
  {
    sent, pos, refs, freed, wire, stop := sent0, pos0, refs0, freed0, wire0, false;
    if batch.len == batchLen || (batch.len > 0 && e.early) {
      var k;
      k, refs, freed, wire := Transmit(batch, sent, pos, refs, freed, wire, e.outcomes);
      sent := sent + k;
      if e.giveUp {
        stop := true;
        return;
      }
      if k == 0 {
        return;
      }
    }
    if !e.alloc {
      stop := true;
      return;
    }
    refs := Enqueue(batch, sent, pos, refs, freed, wire);
    pos := pos + 1;
  }

  /** Fills the batch packet by packet and transmits it when it is full or a packet is early. */
  method FillLoop(batch: Batch, count: nat, batchLen: nat, events: seq<Event>)
    returns (sent: nat, pos: nat, refs: seq<nat>, freed: seq<nat>, wire: seq<nat>, rest: seq<Event>)
    requires batch.Valid() && batch.len == 0 && 0 < batchLen <= SHORT_BATCH
    modifies batch, batch.queue
    ensures Flushing(batch, refs, freed, wire, sent, pos)
    ensures Progress(sent, pos, rest) == Filled(0, 0, count, batchLen, events)
  {
    sent, pos, refs, freed, wire, rest := 0, 0, [], [], [], events;
    var stop := false;
    while pos < count && !stop
      invariant sent <= pos <= count && Flushing(batch, refs, freed, wire, sent, pos) && pos - sent <= batchLen
      invariant Filled(0, 0, count, batchLen, events) == if stop then Progress(sent, pos, rest) else Filled(sent, pos, count, batchLen, rest)
      decreases !stop, |rest|
    {
      hide FillTurn;
      var e := Head(rest);
      LastStops(sent, pos, batchLen, rest);
      rest := Tail(rest);
      sent, pos, refs, freed, wire, stop := FillOne(batch, sent, pos, batchLen, refs, freed, wire, e);
    }
  }

  lemma LastStops(sent: nat, pos: nat, batchLen: nat, events: seq<Event>)
    requires sent <= pos
    ensures events == [] ==> FillTurn(sent, pos, batchLen, Head(events)).stop
  {
  }

  /** Transmits what is left in the batch until it is empty or the thread is told to give up. */
  method DrainLoop(batch: Batch, sent0: nat, pos: nat, refs0: seq<nat>, freed0: seq<nat>, wire0: seq<nat>, events: seq<Event>)
    returns (sent: nat, refs: seq<nat>, freed: seq<nat>, wire: seq<nat>, rest: seq<Event>)
    requires sent0 <= pos && Flushing(batch, refs0, freed0, wire0, sent0, pos)
    modifies batch, batch.queue
    ensures sent <= pos && Flushing(batch, refs, freed, wire, sent, pos)
    ensures Progress(sent, pos, rest) == Drained(sent0, pos, events)
  {
    sent, refs, freed, wire, rest := sent0, refs0, freed0, wire0, events;
    while batch.len > 0
      invariant sent <= pos && Flushing(batch, refs, freed, wire, sent, pos)
      invariant Drained(sent0, pos, events) == Drained(sent, pos, rest)
      decreases |rest|, batch.len
    {
      ghost var now := Drained(sent, pos, rest);
      var e := Head(rest);
      rest := Tail(rest);
      var k;
      k, refs, freed, wire := Transmit(batch, sent, pos, refs, freed, wire, e.outcomes);
      sent := sent + k;
      if e.giveUp {
        assert now == Progress(sent, pos, rest);
        break;
      }
      assert now == Drained(sent, pos, rest);
    }
  }

  /** Frees what could not be sent: the reference of the attempt, then the last one. */
  method Discard(batch: Batch, sent: nat, pos: nat, refs0: seq<nat>, freed0: seq<nat>, ghost wire: seq<nat>)
    returns (refs: seq<nat>, freed: seq<nat>)
    requires sent <= pos && Flushing(batch, refs0, freed0, wire, sent, pos)
    ensures |refs| == pos && Holding(refs, pos, 2) && freed == Upto(pos)
  {
    refs, freed := refs0, freed0;
    var n := 0;
    while n < batch.len
      invariant 0 <= n <= batch.len && |refs| == pos && Holding(refs, sent + n, 2) && freed == Upto(sent + n)
    {
      var skb := batch.queue[n];
      assert skb == batch.Contents()[n] == sent + n;
      refs := refs[skb := refs[skb] - 1];
      refs := refs[skb := refs[skb] - 1];
      freed := freed + [skb];
      n := n + 1;
    }
  }

  /** One flush of a half holding `count` packets.  Every packet is counted once, as sent or as
      discarded; those sent are the first ones, in order; every buffer was freed exactly
      once and holds no reference.  Nothing is discarded unless the thread is told to give
      up, an allocation fails or the driver keeps refusing until the events run out. */
  method QueueXmit(count: nat, batchLen: nat, events: seq<Event>)
    returns (sent: nat, disc: nat, refs: seq<nat>, freed: seq<nat>, wire: seq<nat>, rest: seq<Event>)
    requires 0 < batchLen <= SHORT_BATCH
    ensures sent + disc == count && wire == Upto(sent)
    ensures sent <= |refs| <= count && freed == Upto(|refs|)
    ensures forall k :: 0 <= k < |refs| ==> refs[k] == 0
    ensures Progress(sent, |refs|, rest) == Flushed(count, batchLen, events)
    ensures Undisturbed(events) && rest != [] ==> disc == 0
    ensures Undisturbed(events) && Willing(events) && |events| > count ==> disc == 0
  {
    var batch := new Batch();
    var pos;
    sent, pos, refs, freed, wire, rest := FillLoop(batch, count, batchLen, events);
    sent, refs, freed, wire, rest := DrainLoop(batch, sent, pos, refs, freed, wire, rest);
    if Undisturbed(events) {
      UndisturbedSends(count, batchLen, events);
    }
    disc := batch.len;
    refs, freed := Discard(batch, sent, pos, refs, freed, wire);
    while pos < count
      invariant pos <= count && sent + disc == pos
    {
      pos := pos + 1;
      disc := disc + 1;
    }
  }
}
