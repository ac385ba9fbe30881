/**
 Lazy forwarding: while a batch of packets is processed, each packet only notes in its log
 the devices it goes to.  Then the devices are collected with their counts, and every device
 gets all its packets in one sweep, cloned as long as they are still needed.
 */
module LazyForward {

  const LOG_LEN: nat := 16
  const POOL_LEN: nat := 128

  type Dev = nat

  /** `devs` are the annotations of a packet; `todo` starts as their number and counts down.  It is
      unsigned in the system: `TodoNeverUnderflows` shows it stays so. */
  datatype Log = Log(devs: seq<Dev>, toKernel: bool, todo: int)

  const EMPTY := Log([], false, 0)

  function Count(s: seq<Dev>, d: Dev): nat
  {
    if s == [] then 0 else Count(s[..|s| - 1], d) + if s[|s| - 1] == d then 1 else 0
  }

  function Sum(s: seq<nat>): nat
  {
    if s == [] then 0 else Sum(s[..|s| - 1]) + s[|s| - 1]
  }

  /** All annotations of the first `n` packets, in order. */
  function Noted(logs: seq<Log>, n: nat): seq<Dev>
    requires n <= |logs|
  {
    if n == 0 then [] else Noted(logs, n - 1) + logs[n - 1].devs
  }

  lemma {:induction false} CountConcat(a: seq<Dev>, b: seq<Dev>, d: Dev)
    ensures Count(a + b, d) == Count(a, d) + Count(b, d)
    decreases |b|
  {
    if b == [] {
      assert a + b == a;
    } else {
      var n := |b| - 1;
      assert (a + b)[..|a + b| - 1] == a + b[..n];
      CountConcat(a, b[..n], d);
    }
  }

  lemma {:induction false} CountZero(s: seq<Dev>, d: Dev)
    ensures Count(s, d) == 0 <==> d !in s
  {
    if s != [] {
      CountZero(s[..|s| - 1], d);
      assert s == s[..|s| - 1] + [s[|s| - 1]];
    }
  }

  // ------------------------------------------------------------------ the collector

  class GcData {
    var queue: seq<nat>
    var log: seq<Log>

    /** A log that no packet uses is blank, so a packet always starts without annotations. */
    ghost predicate Valid()
      reads this
    {
      && |log| == POOL_LEN && |queue| <= POOL_LEN
      && (forall i :: 0 <= i < POOL_LEN ==> |log[i].devs| <= LOG_LEN && log[i].todo == |log[i].devs|)
      && (forall i :: |queue| <= i < POOL_LEN ==> log[i] == EMPTY)
    }

    constructor ()
      ensures Valid() && queue == []
    {
      queue := [];
      log := seq(POOL_LEN, _ => EMPTY);
    }

    /** Only the logs in use are cleared, which leaves every log blank. */
    method Reset()
      requires |log| == POOL_LEN && |queue| <= POOL_LEN && forall i :: |queue| <= i < POOL_LEN ==> log[i] == EMPTY
      modifies this
      ensures Valid() && queue == []
    {
      var n := 0;
      while n < |queue|
        invariant 0 <= n <= |queue| <= |log| == POOL_LEN && queue == old(queue)
        invariant forall i :: 0 <= i < POOL_LEN && (i < n || |queue| <= i) ==> log[i] == EMPTY
      {
        log := log[n := EMPTY];
        n := n + 1;
      }
      queue := [];
    }

    /** Adds a packet to the pool, unless it is full. */
    method MakeBuff(skb: nat) returns (ok: bool)
      requires Valid()
      modifies this`queue
      ensures Valid() && ok == (|old(queue)| < POOL_LEN)
      ensures queue == if ok then old(queue) + [skb] else old(queue)
      ensures ok ==> log[|old(queue)|].devs == []
    {
      ok := |queue| < POOL_LEN;
      if ok {
        queue := queue + [skb];
      }
    }

    /** Notes that packet `i` goes to `dev`, unless it has too many annotations. */
    method LazyXmit(i: nat, dev: Dev) returns (ok: bool)
      requires Valid() && i < |queue|
      modifies this`log
      ensures Valid() && ok == (|old(log)[i].devs| < LOG_LEN)
      ensures log == if ok then old(log)[i := Log(old(log)[i].devs + [dev], old(log)[i].toKernel, old(log)[i].todo + 1)]
                     else old(log)
    {
      ok := |log[i].devs| < LOG_LEN;
      if ok {
        log := log[i := Log(log[i].devs + [dev], log[i].toKernel, log[i].todo + 1)];
      }
    }

    method ToKernel(i: nat)
      requires Valid() && i < |queue|
      modifies this`log
      ensures Valid() && log == old(log)[i := old(log)[i].(toKernel := true)]
    {
      log := log[i := log[i].(toKernel := true)];
    }

    /** Collects the devices of all packets in the pool. */
    method GetFwdTargets() returns (ts: Targets)
      requires Valid()
      ensures fresh(ts) && ts.Holds(Noted(log, |queue|))
    {
      ts := new Targets();
      var n := 0;
      while n < |queue|
        invariant 0 <= n <= |queue| && ts.Holds(Noted(log, n))
      {
        ts.AddAll(log[n].devs, Noted(log, n));
        n := n + 1;
      }
    }

    /** Executes all noted transmissions; `calls` lists the attempts, `taken(k)` says whether
        the k-th of them could be cloned and was accepted by its driver. */
    method Exec(ts: Targets, taken: nat -> bool) returns (sent: nat, calls: seq<Call>)
      requires Valid() && ts.Holds(Noted(log, |queue|))
      modifies this`log
      ensures calls == ExecCalls(old(log)[..|queue|], ts.dev, ts.cnt, |ts.dev|)
      ensures log == AfterDevs(old(log)[..|queue|], ts.dev, |ts.dev|) + old(log)[|queue|..]
      ensures sent == |Below(taken, |calls|)|
    {
      var after;
      after, calls, sent := ExecOn(log[..|queue|], ts.dev, ts.cnt, taken);
      AcceptedCount(taken, |calls|);
      log := after + log[|queue|..];
    }
  }

  // ---------------------------------------------------------------- the target table

  /** The devices in order of first appearance. */
  function Firsts(s: seq<Dev>): (r: seq<Dev>)
    ensures forall d :: d in r <==> d in s
    ensures forall i, j :: 0 <= i < j < |r| ==> r[i] != r[j]
  {
    if s == [] then [] else
      var r := Firsts(s[..|s| - 1]);
      assert s == s[..|s| - 1] + [s[|s| - 1]];
      if s[|s| - 1] in r then r else r + [s[|s| - 1]]
  }

  /** Those that find room in the table. */
  function Kept(s: seq<Dev>): seq<Dev>
  {
    var r := Firsts(s);
    if |r| <= LOG_LEN then r else r[..LOG_LEN]
  }

  predicate IsTable(s: seq<Dev>, dev: seq<Dev>, cnt: seq<nat>)
  {
    dev == Kept(s) && |cnt| == |dev| && forall k :: 0 <= k < |dev| ==> cnt[k] == Count(s, dev[k])
  }

  class Targets {
    var dev: seq<Dev>
    var cnt: seq<nat>
    var total: nat

    /** The table of the annotations `s`: distinct devices, exact counts, exact total. */
    ghost predicate Holds(s: seq<Dev>)
      reads this
    {
      IsTable(s, dev, cnt) && total == Sum(cnt)
    }

    constructor ()
      ensures Holds([])
    {
      dev, cnt, total := [], [], 0;
    }

    method AddDev(d: Dev, ghost s: seq<Dev>)
      requires Holds(s)
      modifies this
      ensures Holds(s + [d])
    {
      var n := 0;
      while n < |dev|
        invariant 0 <= n <= |dev| && d !in dev[..n]
      {
        if d == dev[n] {
          TableBump(s, d, dev, cnt, n);
          cnt := cnt[n := cnt[n] + 1];
          total := total + 1;
          return;
        }
        n := n + 1;
      }
      assert dev[..n] == dev;
      TableNew(s, d, dev, cnt);
      if |dev| < LOG_LEN {
        dev := dev + [d];
        cnt := cnt + [1];
        total := total + 1;
      }
    }

    method AddAll(devs: seq<Dev>, ghost s: seq<Dev>)
      requires Holds(s)
      modifies this
      ensures Holds(s + devs)
    {
      var i := 0;
      assert s + devs[..0] == s;
      while i < |devs|
        invariant 0 <= i <= |devs| && Holds(s + devs[..i])
      {
        AddDev(devs[i], s + devs[..i]);
        assert s + devs[..i + 1] == s + devs[..i] + [devs[i]];
        i := i + 1;
      }
      assert devs[..i] == devs;
    }
  }

  lemma {:induction false} SumUpdate(s: seq<nat>, n: nat)
    requires n < |s|
    ensures Sum(s[n := s[n] + 1]) == Sum(s) + 1
  {
    var m := |s| - 1;
    if n < m {
      assert s[n := s[n] + 1][..m] == s[..m][n := s[n] + 1];
      SumUpdate(s[..m], n);
    } else {
      assert s[n := s[n] + 1][..m] == s[..m];
    }
  }

  lemma KeptMore(s: seq<Dev>, d: Dev)
    ensures Kept(s + [d]) == if d !in Kept(s) && |Kept(s)| < LOG_LEN then Kept(s) + [d] else Kept(s)
    ensures forall x :: Count(s + [d], x) == Count(s, x) + if x == d then 1 else 0
    ensures d !in Kept(s) && |Kept(s)| < LOG_LEN ==> Count(s, d) == 0
    ensures forall i, j :: 0 <= i < j < |Kept(s)| ==> Kept(s)[i] != Kept(s)[j]
  {
    assert (s + [d])[..|s|] == s;
    CountZero(s, d);
  }

  lemma TableBump(s: seq<Dev>, d: Dev, dev: seq<Dev>, cnt: seq<nat>, n: nat)
    requires IsTable(s, dev, cnt) && n < |dev| && dev[n] == d
    ensures IsTable(s + [d], dev, cnt[n := cnt[n] + 1]) && Sum(cnt[n := cnt[n] + 1]) == Sum(cnt) + 1
  {
    KeptMore(s, d);
    SumUpdate(cnt, n);
  }

  lemma TableNew(s: seq<Dev>, d: Dev, dev: seq<Dev>, cnt: seq<nat>)
    requires IsTable(s, dev, cnt) && d !in dev
    ensures if |dev| < LOG_LEN then IsTable(s + [d], dev + [d], cnt + [1]) && Sum(cnt + [1]) == Sum(cnt) + 1
            else IsTable(s + [d], dev, cnt)
  {
    KeptMore(s, d);
    assert (cnt + [1])[..|cnt|] == cnt;
  }

  // -------------------------------------------------------------------- execution

  /** One attempt to transmit packet `pkt` through `dev`. */
  datatype Call = Call(dev: Dev, pkt: nat, more: bool, clone: bool)

  function Accepted(taken: nat -> bool, n: nat): nat
  {
    if n == 0 then 0 else Accepted(taken, n - 1) + if taken(n - 1) then 1 else 0
  }

  /** The attempts below `n` that were accepted. */
  ghost function Below(taken: nat -> bool, n: nat): set<nat>
  {
    set k: nat | k < n && taken(k)
  }

  lemma {:induction false} AcceptedCount(taken: nat -> bool, n: nat)
    ensures Accepted(taken, n) == |Below(taken, n)|
  {
    if n > 0 {
      AcceptedCount(taken, n - 1);
      assert Below(taken, n) == Below(taken, n - 1) + if taken(n - 1) then {n - 1} else {};
    }
  }

  lemma AcceptedNone(taken: nat -> bool)
    ensures Accepted(taken, 0) == 0
  {
  }

  function PacketCalls(l: Log, dev: Dev, pkt: nat, cnt: nat, start: nat): seq<Call>
  {
    seq(Count(l.devs, dev), k => Call(dev, pkt, start + k + 1 != cnt, l.toKernel || l.todo - k > 1))
  }

  /** The log after `n` of its transmissions. */
  function Spent(l: Log, n: nat): Log
  {
    if l.toKernel then l else l.(todo := l.todo - n)
  }

  function DeviceCalls(logs: seq<Log>, dev: Dev, cnt: nat, n: nat): seq<Call>
    requires n <= |logs|
  {
    if n == 0 then [] else
      var before := DeviceCalls(logs, dev, cnt, n - 1);
      before + PacketCalls(logs[n - 1], dev, n - 1, cnt, |before|)
  }

  /** How often the devices `ds` occur in the annotations `s`. */
  function Hits(s: seq<Dev>, ds: seq<Dev>): nat
  {
    if ds == [] then 0 else Hits(s, ds[..|ds| - 1]) + Count(s, ds[|ds| - 1])
  }

  /** The logs once the first `n` devices are served. */
  function AfterDevs(logs: seq<Log>, ds: seq<Dev>, n: nat): (r: seq<Log>)
    requires n <= |ds|
    ensures |r| == |logs| && forall i :: 0 <= i < |r| ==> r[i].devs == logs[i].devs && r[i].toKernel == logs[i].toKernel
  {
    seq(|logs|, i requires 0 <= i < |logs| => Spent(logs[i], Hits(logs[i].devs, ds[..n])))
  }

  function ExecCalls(logs: seq<Log>, ds: seq<Dev>, cnts: seq<nat>, n: nat): seq<Call>
    requires n <= |ds| == |cnts|
  {
    if n == 0 then [] else
      ExecCalls(logs, ds, cnts, n - 1) + DeviceCalls(AfterDevs(logs, ds, n - 1), ds[n - 1], cnts[n - 1], |logs|)
  }

  lemma AfterNone(logs: seq<Log>, ds: seq<Dev>)
    ensures AfterDevs(logs, ds, 0) == logs
  {
    assert ds[..0] == [];
    forall i | 0 <= i < |logs|
      ensures AfterDevs(logs, ds, 0)[i] == logs[i]
    {
      assert Spent(logs[i], 0) == logs[i];
    }
  }

  lemma AfterNext(logs: seq<Log>, ds: seq<Dev>, n: nat)
    requires n < |ds|
    ensures forall i :: 0 <= i < |logs| ==>
              AfterDevs(logs, ds, n + 1)[i] == Spent(AfterDevs(logs, ds, n)[i], Count(logs[i].devs, ds[n]))
  {
    assert ds[..n + 1][..n] == ds[..n];
  }

  /** Forwards one packet to one device as often as it is noted. */
  method ForwardPacket(l: Log, dev: Dev, pkt: nat, cnt: nat, start: nat, first: nat, sent0: nat, taken: nat -> bool)
    returns (after: Log, calls: seq<Call>, sent: nat)
    requires sent0 == Accepted(taken, first)
    ensures calls == PacketCalls(l, dev, pkt, cnt, start) && |calls| == Count(l.devs, dev) && after == Spent(l, |calls|)
    ensures sent == Accepted(taken, first + |calls|)
  {
    var num := CountInLog(l, dev);
    after, calls, sent := l, [], sent0;
    var sentDev, j := start, 0;
    while j < num
      invariant 0 <= j <= num && sentDev == start + j
      invariant calls == PacketCalls(l, dev, pkt, cnt, start)[..j] && after == Spent(l, j)
      invariant sent == Accepted(taken, first + j)
    {
      sentDev := sentDev + 1;
      var more := sentDev != cnt;
      var clone := after.toKernel || after.todo > 1;
      if !after.toKernel {
        after := after.(todo := after.todo - 1);
      }
      calls := calls + [Call(dev, pkt, more, clone)];
      if taken(first + j) {
        sent := sent + 1;
      }
      j := j + 1;
    }
  }

  method CountInLog(l: Log, dev: Dev) returns (n: nat)
    ensures n == Count(l.devs, dev)
  {
    n := 0;
    var i := 0;
    while i < |l.devs|
      invariant 0 <= i <= |l.devs| && n == Count(l.devs[..i], dev)
    {
      assert l.devs[..i + 1][..i] == l.devs[..i];
      if dev == l.devs[i] {
        n := n + 1;
      }
      i := i + 1;
    }
    assert l.devs[..i] == l.devs;
  }

  /** One sweep over the packets for one device. */
  method ForwardDevice(logs: seq<Log>, dev: Dev, cnt: nat, first: nat, sent0: nat, taken: nat -> bool)
    returns (after: seq<Log>, calls: seq<Call>, sent: nat)
    requires sent0 == Accepted(taken, first)
    ensures calls == DeviceCalls(logs, dev, cnt, |logs|) && sent == Accepted(taken, first + |calls|)
    ensures |after| == |logs| && forall i :: 0 <= i < |logs| ==> after[i] == Spent(logs[i], Count(logs[i].devs, dev))
  {
    hide Accepted, PacketCalls, Spent, Count;
    after, calls, sent := logs, [], sent0;
    var i := 0;
    while i < |logs|
      invariant 0 <= i <= |logs| == |after| && calls == DeviceCalls(logs, dev, cnt, i)
      invariant sent == Accepted(taken, first + |calls|)
      invariant forall k :: 0 <= k < |logs| ==> after[k] == if k < i then Spent(logs[k], Count(logs[k].devs, dev)) else logs[k]
    {
      var l, more;
      l, more, sent := ForwardPacket(after[i], dev, i, cnt, |calls|, first + |calls|, sent, taken);
      after := after[i := l];
      calls := calls + more;
      i := i + 1;
    }
  }

  /** One sweep per device of the table. */
  method ExecOn(logs: seq<Log>, ds: seq<Dev>, cnts: seq<nat>, taken: nat -> bool)
    returns (after: seq<Log>, calls: seq<Call>, sent: nat)
    requires |ds| == |cnts|
    ensures calls == ExecCalls(logs, ds, cnts, |ds|) && after == AfterDevs(logs, ds, |ds|)
    ensures sent == Accepted(taken, |calls|)
  {
    hide Accepted, DeviceCalls, Hits, Spent;
    after, calls, sent := logs, [], 0;
    assert Accepted(taken, 0) == 0 by { AcceptedNone(taken); }
    AfterNone(logs, ds);
    var n := 0;
    while n < |ds|
      invariant 0 <= n <= |ds| && calls == ExecCalls(logs, ds, cnts, n) && after == AfterDevs(logs, ds, n)
      invariant sent == Accepted(taken, |calls|)
    {
      var more;
      after, more, sent := ForwardDevice(after, ds[n], cnts[n], |calls|, sent, taken);
      AfterNext(logs, ds, n);
      calls := calls + more;
      n := n + 1;
    }
  }

  // --------------------------------------------------------------- what was executed

  function PktCalls(calls: seq<Call>, pkt: nat): nat
  {
    if calls == [] then 0 else PktCalls(calls[..|calls| - 1], pkt) + if calls[|calls| - 1].pkt == pkt then 1 else 0
  }

  lemma {:induction false} PktConcat(a: seq<Call>, b: seq<Call>, pkt: nat)
    ensures PktCalls(a + b, pkt) == PktCalls(a, pkt) + PktCalls(b, pkt)
    decreases |b|
  {
    if b == [] {
      assert a + b == a;
    } else {
      assert (a + b)[..|a + b| - 1] == a + b[..|b| - 1];
      PktConcat(a, b[..|b| - 1], pkt);
    }
  }

  lemma {:induction false} PktUniform(c: seq<Call>, pkt: nat, p: nat)
    requires forall k :: 0 <= k < |c| ==> c[k].pkt == p
    ensures PktCalls(c, pkt) == if pkt == p then |c| else 0
  {
    if c != [] {
      PktUniform(c[..|c| - 1], pkt, p);
    }
  }

  /** A device's sweep has one call per annotation, all on that device, and announces more to come
      on all but the call that completes its count. */
  lemma {:induction false} DeviceShape(logs: seq<Log>, dev: Dev, cnt: nat, n: nat)
    requires n <= |logs|
    ensures |DeviceCalls(logs, dev, cnt, n)| == Count(Noted(logs, n), dev)
    ensures forall p :: 0 <= p < |DeviceCalls(logs, dev, cnt, n)| ==>
              var c := DeviceCalls(logs, dev, cnt, n)[p]; c.dev == dev && c.pkt < n && c.more == (p + 1 != cnt)
  {
    if n > 0 {
      DeviceShape(logs, dev, cnt, n - 1);
      CountConcat(Noted(logs, n - 1), logs[n - 1].devs, dev);
    }
  }

  lemma {:induction false} DevicePkts(logs: seq<Log>, dev: Dev, cnt: nat, n: nat, pkt: nat)
    requires n <= |logs| && pkt < |logs|
    ensures PktCalls(DeviceCalls(logs, dev, cnt, n), pkt) == if pkt < n then Count(logs[pkt].devs, dev) else 0
  {
    if n > 0 {
      DevicePkts(logs, dev, cnt, n - 1, pkt);
      var before := DeviceCalls(logs, dev, cnt, n - 1);
      var last := PacketCalls(logs[n - 1], dev, n - 1, cnt, |before|);
      PktConcat(before, last, pkt);
      PktUniform(last, pkt, n - 1);
    }
  }

  /** In a device's sweep a packet is cloned unless this is the last of its remaining transmissions. */
  lemma {:induction false} DeviceClone(logs: seq<Log>, dev: Dev, cnt: nat, n: nat, p: nat)
    requires n <= |logs| && p < |DeviceCalls(logs, dev, cnt, n)|
    ensures var cs := DeviceCalls(logs, dev, cnt, n);
            cs[p].pkt < n && (cs[p].clone <==> logs[cs[p].pkt].toKernel || logs[cs[p].pkt].todo > PktCalls(cs[..p + 1], cs[p].pkt))
  {
    var before := DeviceCalls(logs, dev, cnt, n - 1);
    var last := PacketCalls(logs[n - 1], dev, n - 1, cnt, |before|);
    if p < |before| {
      DeviceClone(logs, dev, cnt, n - 1, p);
      assert (before + last)[..p + 1] == before[..p + 1];
    } else {
      DevicePkts(logs, dev, cnt, n - 1, n - 1);
      PacketClone(before, last, n - 1, p);
      assert (before + last)[p] == last[p - |before|];
    }
  }

  lemma PacketClone(before: seq<Call>, last: seq<Call>, pkt: nat, p: nat)
    requires PktCalls(before, pkt) == 0 && |before| <= p < |before| + |last|
    requires forall k :: 0 <= k < |last| ==> last[k].pkt == pkt
    ensures PktCalls((before + last)[..p + 1], pkt) == p - |before| + 1
  {
    var k := p - |before|;
    assert (before + last)[..p + 1] == before + last[..k + 1];
    PktConcat(before, last[..k + 1], pkt);
    PktUniform(last[..k + 1], pkt, pkt);
  }

  lemma {:induction false} NotedSame(a: seq<Log>, b: seq<Log>, n: nat)
    requires n <= |a| == |b| && forall i :: 0 <= i < |a| ==> a[i].devs == b[i].devs
    ensures Noted(a, n) == Noted(b, n)
  {
    if n > 0 {
      NotedSame(a, b, n - 1);
    }
  }

  /** The table that the counts come from. */
  predicate Exact(logs: seq<Log>, ds: seq<Dev>, cnts: seq<nat>)
  {
    && |ds| == |cnts|
    && (forall i, j :: 0 <= i < j < |ds| ==> ds[i] != ds[j])
    && (forall k :: 0 <= k < |ds| ==> cnts[k] == Count(Noted(logs, |logs|), ds[k]))
  }

  lemma SegmentIs(logs: seq<Log>, ds: seq<Dev>, cnts: seq<nat>, n: nat)
    requires n < |ds| && Exact(logs, ds, cnts)
    ensures var seg := DeviceCalls(AfterDevs(logs, ds, n), ds[n], cnts[n], |logs|);
            && |seg| == cnts[n]
            && forall p :: 0 <= p < |seg| ==> seg[p].dev == ds[n] && seg[p].pkt < |logs| && seg[p].more == (p + 1 != cnts[n])
  {
    DeviceShape(AfterDevs(logs, ds, n), ds[n], cnts[n], |logs|);
    NotedSame(AfterDevs(logs, ds, n), logs, |logs|);
  }

  /** Execution makes as many attempts as the table counts. */
  lemma {:induction false} ExecTotal(logs: seq<Log>, ds: seq<Dev>, cnts: seq<nat>, n: nat)
    requires n <= |ds| && Exact(logs, ds, cnts)
    ensures |ExecCalls(logs, ds, cnts, n)| == Sum(cnts[..n])
    ensures forall p :: 0 <= p < |ExecCalls(logs, ds, cnts, n)| ==>
              ExecCalls(logs, ds, cnts, n)[p].dev in ds[..n] && ExecCalls(logs, ds, cnts, n)[p].pkt < |logs|
  {
    if n > 0 {
      ExecTotal(logs, ds, cnts, n - 1);
      SegmentIs(logs, ds, cnts, n - 1);
      assert cnts[..n][..n - 1] == cnts[..n - 1];
      assert ds[..n] == ds[..n - 1] + [ds[n - 1]];
    }
  }

  /** An attempt announces more to come exactly when its device will be attempted again. */
  ghost predicate MoreToCome(calls: seq<Call>, p: nat)
    requires p < |calls|
  {
    exists q :: p < q < |calls| && calls[q].dev == calls[p].dev
  }

  lemma {:induction false} MoreIff(logs: seq<Log>, ds: seq<Dev>, cnts: seq<nat>, n: nat, p: nat)
    requires n <= |ds| && Exact(logs, ds, cnts) && p < |ExecCalls(logs, ds, cnts, n)|
    ensures var cs := ExecCalls(logs, ds, cnts, n); cs[p].more <==> MoreToCome(cs, p)
  {
    var before := ExecCalls(logs, ds, cnts, n - 1);
    var seg := DeviceCalls(AfterDevs(logs, ds, n - 1), ds[n - 1], cnts[n - 1], |logs|);
    var cs := before + seg;
    SegmentIs(logs, ds, cnts, n - 1);
    ExecTotal(logs, ds, cnts, n - 1);
    if p < |before| {
      MoreIff(logs, ds, cnts, n - 1, p);
      assert cs[p] == before[p] && cs[p].dev in ds[..n - 1];
      assert ds[n - 1] !in ds[..n - 1];
      if MoreToCome(before, p) {
        var q :| p < q < |before| && before[q].dev == before[p].dev;
        assert cs[q].dev == cs[p].dev;
      }
    } else if p + 1 < |cs| {
      assert cs[p + 1].dev == seg[p + 1 - |before|].dev == cs[p].dev;
    }
  }

  lemma {:induction false} ExecPkts(logs: seq<Log>, ds: seq<Dev>, cnts: seq<nat>, n: nat, pkt: nat)
    requires n <= |ds| == |cnts| && pkt < |logs|
    ensures PktCalls(ExecCalls(logs, ds, cnts, n), pkt) == Hits(logs[pkt].devs, ds[..n])
  {
    if n > 0 {
      ExecPkts(logs, ds, cnts, n - 1, pkt);
      var seg := DeviceCalls(AfterDevs(logs, ds, n - 1), ds[n - 1], cnts[n - 1], |logs|);
      PktConcat(ExecCalls(logs, ds, cnts, n - 1), seg, pkt);
      DevicePkts(AfterDevs(logs, ds, n - 1), ds[n - 1], cnts[n - 1], |logs|, pkt);
      assert ds[..n][..n - 1] == ds[..n - 1];
    }
  }

  /** A packet's k-th attempt is cloned exactly when it goes to the kernel too or k is not yet the
      number of its annotations. */
  lemma {:induction false} CloneIff(logs: seq<Log>, ds: seq<Dev>, cnts: seq<nat>, n: nat, p: nat)
    requires n <= |ds| && Exact(logs, ds, cnts) && p < |ExecCalls(logs, ds, cnts, n)|
    requires forall i :: 0 <= i < |logs| ==> logs[i].todo == |logs[i].devs|
    ensures var cs := ExecCalls(logs, ds, cnts, n);
            cs[p].pkt < |logs| && (cs[p].clone <==> logs[cs[p].pkt].toKernel || PktCalls(cs[..p + 1], cs[p].pkt) < |logs[cs[p].pkt].devs|)
  {
    var before, now := ExecCalls(logs, ds, cnts, n - 1), AfterDevs(logs, ds, n - 1);
    var seg := DeviceCalls(now, ds[n - 1], cnts[n - 1], |logs|);
    var cs := before + seg;
    if p < |before| {
      CloneIff(logs, ds, cnts, n - 1, p);
      assert cs[..p + 1] == before[..p + 1];
    } else {
      var k := p - |before|;
      DeviceClone(now, ds[n - 1], cnts[n - 1], |logs|, k);
      assert cs[..p + 1] == before + seg[..k + 1];
      PktConcat(before, seg[..k + 1], cs[p].pkt);
      ExecPkts(logs, ds, cnts, n - 1, cs[p].pkt);
    }
  }

  lemma {:induction false} HitsMore(s: seq<Dev>, x: Dev, ds: seq<Dev>)
    requires forall i, j :: 0 <= i < j < |ds| ==> ds[i] != ds[j]
    ensures Hits(s + [x], ds) == Hits(s, ds) + if x in ds then 1 else 0
  {
    if ds != [] {
      var m := |ds| - 1;
      HitsMore(s, x, ds[..m]);
      assert (s + [x])[..|s|] == s;
      assert ds == ds[..m] + [ds[m]];
      assert ds[m] !in ds[..m];
    }
  }

  /** Distinct devices account for each annotation at most once, and for all of them when they
      include all devices noted. */
  lemma {:induction false} HitsBound(s: seq<Dev>, ds: seq<Dev>)
    requires forall i, j :: 0 <= i < j < |ds| ==> ds[i] != ds[j]
    ensures Hits(s, ds) <= |s|
    ensures (forall d :: d in s ==> d in ds) ==> Hits(s, ds) == |s|
  {
    if s == [] {
      HitsNone(ds);
    } else {
      var m := |s| - 1;
      assert s == s[..m] + [s[m]];
      HitsBound(s[..m], ds);
      HitsMore(s[..m], s[m], ds);
    }
  }

  lemma {:induction false} HitsNone(ds: seq<Dev>)
    ensures Hits([], ds) == 0
  {
    if ds != [] {
      HitsNone(ds[..|ds| - 1]);
    }
  }

  /** The unsigned count of a packet's remaining transmissions never goes below zero. */
  lemma TodoNeverUnderflows(logs: seq<Log>, ds: seq<Dev>, n: nat, i: nat)
    requires n <= |ds| && i < |logs| && logs[i].todo == |logs[i].devs|
    requires forall i, j :: 0 <= i < j < |ds| ==> ds[i] != ds[j]
    ensures AfterDevs(logs, ds, n)[i].todo >= 0
  {
    HitsBound(logs[i].devs, ds[..n]);
  }

  /** With room for all devices, a packet not meant for the kernel is cloned on every forward but
      its last, and forwarded once for each annotation. */
  lemma ClonedButLast(logs: seq<Log>, ds: seq<Dev>, cnts: seq<nat>, p: nat)
    requires Exact(logs, ds, cnts) && p < |ExecCalls(logs, ds, cnts, |ds|)|
    requires forall i :: 0 <= i < |logs| ==> logs[i].todo == |logs[i].devs|
    requires forall i, d :: 0 <= i < |logs| && d in logs[i].devs ==> d in ds
    ensures var cs := ExecCalls(logs, ds, cnts, |ds|);
            && cs[p].pkt < |logs| && PktCalls(cs, cs[p].pkt) == |logs[cs[p].pkt].devs|
            && (!logs[cs[p].pkt].toKernel ==> (cs[p].clone <==> PktCalls(cs[p + 1..], cs[p].pkt) > 0))
  {
    var cs := ExecCalls(logs, ds, cnts, |ds|);
    CloneIff(logs, ds, cnts, |ds|, p);
    var pkt := cs[p].pkt;
    ExecPkts(logs, ds, cnts, |ds|, pkt);
    assert ds[..|ds|] == ds;
    HitsBound(logs[pkt].devs, ds);
    assert cs == cs[..p + 1] + cs[p + 1..];
    PktConcat(cs[..p + 1], cs[p + 1..], pkt);
  }

  /** The whole of lazy forwarding: with the table collected from the logs, execution makes exactly
      the counted attempts, announces more to come on all but each device's last, and, when
      there are at most 16 devices, clones a packet not meant for the kernel on every
      forward but its last. */
  lemma ForwardingExact(logs: seq<Log>, ds: seq<Dev>, cnts: seq<nat>, p: nat)
    requires IsTable(Noted(logs, |logs|), ds, cnts) && p < Sum(cnts)
    requires forall i :: 0 <= i < |logs| ==> logs[i].todo == |logs[i].devs|
    ensures var cs := ExecCalls(logs, ds, cnts, |ds|);
            && |cs| == Sum(cnts) && (cs[p].more <==> MoreToCome(cs, p)) && cs[p].pkt < |logs|
            && (|Firsts(Noted(logs, |logs|))| <= LOG_LEN && !logs[cs[p].pkt].toKernel ==>
                  (cs[p].clone <==> PktCalls(cs[p + 1..], cs[p].pkt) > 0))
  {
    var s := Noted(logs, |logs|);
    assert Exact(logs, ds, cnts);
    assert cnts[..|ds|] == cnts;
    ExecTotal(logs, ds, cnts, |ds|);
    MoreIff(logs, ds, cnts, |ds|, p);
    if |Firsts(s)| <= LOG_LEN {
      forall i, d | 0 <= i < |logs| && d in logs[i].devs
        ensures d in ds
      {
        NotedAll(logs, |logs|, i, d);
      }
      ClonedButLast(logs, ds, cnts, p);
    }
  }

  lemma {:induction false} NotedAll(logs: seq<Log>, n: nat, i: nat, d: Dev)
    requires i < n <= |logs| && d in logs[i].devs
    ensures d in Noted(logs, n)
  {
    if i < n - 1 {
      NotedAll(logs, n - 1, i, d);
    }
  }
}
