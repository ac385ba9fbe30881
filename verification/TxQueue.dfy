/**
 The transmit queue shared by one user-space producer and one kernel thread.

 Two halves alternate.  The thread advances `cons` to ask for a swap and waits until the
 producer, entering an injection, has copied it into `prod`; then it walks the other half
 until a header of length zero.  Memory is made of 8-byte words: a packet takes a word
 for its length, one for its timestamp and its bytes rounded up to whole words.

 Steps are atomic and sequentially consistent; a run is any interleaving of them.
 Fields called history are not read by any step.
 */
module TxQueue {
  import opened Seqs

  const LIMIT: nat := 0x1_0000_0000

  datatype Pkt = Pkt(len: nat, nsec: nat, body: seq<nat>)

  /** What a caller may inject: at least one byte, held in as many words as needed. */
  predicate Proper(p: Pkt)
  {
    p.len > 0 && |p.body| == Words(p.len)
  }

  function Words(bytes: nat): nat { (bytes + 7) / 8 }

  /** The fewest words that hold so many bytes. */
  lemma WordsFewest(bytes: nat)
    ensures bytes <= 8 * Words(bytes) < bytes + 8
  {
  }

  /** Words a packet takes with its header. */
  function Size(p: Pkt): nat { 2 + Words(p.len) }

  /** Words taken by the first `k` packets. */
  function Offset(pkts: seq<Pkt>, k: nat): nat
    requires k <= |pkts|
  {
    if k == 0 then 0 else Offset(pkts, k - 1) + Size(pkts[k - 1])
  }

  function Span(pkts: seq<Pkt>): nat { Offset(pkts, |pkts|) }

  /** The producer; `epoch` is history: which swap its index belongs to. */
  datatype User =
    | Outside
    | Loaded(index: nat, epoch: int)
    | Entered(index: nat)
    | Writing(pkt: Pkt, stage: nat)

  /** The thread; `taken` is history: how many packets of the half it has walked. */
  datatype Kernel =
    | Idle
    | Waiting(index: nat)
    | Walking(begin: nat, ptr: nat, taken: nat)
    | Clearing(begin: nat)

  /** `width` is the number of words of a half.  History: `hist[e]` lists the packets accepted
      while `cons` stood at its `e`-th value, `seen` and `tseen` are `prod` and `tindex` unwrapped. */
  datatype State = State(width: nat, mem: seq<nat>, prod: nat, cons: nat, tindex: nat, tptr: nat, user: User,
                         kernel: Kernel, out: seq<Pkt>, hist: seq<seq<Pkt>>, seen: int, tseen: int)

  datatype Action =
    | Load | Store | Place(pkt: Pkt) | WriteLen | WriteStamp | WriteBody | Finish
    | Add | Wake | Read | Stop | Clear

  function Base(s: State, e: int): nat { if e % 2 == 0 then 0 else s.width }

  function Epoch(s: State): int { |s.hist| - 1 }

  // ------------------------------------------------------------------ the steps

  predicate Enabled(s: State, a: Action)
  {
    match a
    case Load => s.user.Outside?
    case Store => s.user.Loaded?
    case Place(p) => s.user.Entered? && Proper(p)
    case WriteLen => s.user.Writing? && s.user.stage == 0
    case WriteStamp => s.user.Writing? && s.user.stage == 1
    case WriteBody => s.user.Writing? && s.user.stage == 2
    case Finish => s.user.Writing? && s.user.stage == 3
    case Add => s.kernel.Idle?
    case Wake => s.kernel.Waiting? && s.prod == s.kernel.index
    case Read => s.kernel.Walking? && s.kernel.ptr < 2 * s.width && s.kernel.ptr < |s.mem| && s.mem[s.kernel.ptr] != 0
    case Stop => s.kernel.Walking? && !(s.kernel.ptr < 2 * s.width && s.kernel.ptr < |s.mem| && s.mem[s.kernel.ptr] != 0)
    case Clear => s.kernel.Clearing?
  }

  /** Words stored at `at`; what falls outside the memory is lost. */
  function Overwrite(mem: seq<nat>, at: nat, words: seq<nat>): seq<nat>
  {
    if at + |words| <= |mem| then mem[..at] + words + mem[at + |words|..] else mem
  }

  /** What the thread makes of the words at `at`. */
  function Fetch(mem: seq<nat>, at: nat): Pkt
    requires at < |mem|
  {
    var n := Words(mem[at]);
    if at + 2 + n <= |mem| then Pkt(mem[at], mem[at + 1], mem[at + 2..at + 2 + n]) else Pkt(mem[at], 0, [])
  }

  function Next(s: State, a: Action): State
    requires Enabled(s, a)
  {
    match a
    case Load => s.(user := Loaded(s.cons, Epoch(s)))
    case Store => s.(prod := s.user.index, user := Entered(s.user.index), seen := s.user.epoch)
    case Place(p) =>
      var base := if s.user.index % 2 == 0 then 0 else s.width;
      var r := if s.user.index != s.tindex then s.(tindex := s.user.index, tptr := base, tseen := s.seen) else s;
      if r.tptr - base + Size(p) + 2 < s.width then r.(user := Writing(p, 0)) else r.(user := Outside)
    case WriteLen => s.(mem := Overwrite(s.mem, s.tptr, [s.user.pkt.len]), user := s.user.(stage := 1))
    case WriteStamp => s.(mem := Overwrite(s.mem, s.tptr + 1, [s.user.pkt.nsec]), user := s.user.(stage := 2))
    case WriteBody => s.(mem := Overwrite(s.mem, s.tptr + 2, s.user.pkt.body), user := s.user.(stage := 3))
    case Finish =>
      var tptr := s.tptr + Size(s.user.pkt);
      s.(mem := Overwrite(s.mem, tptr, [0]), tptr := tptr, user := Outside, hist := Accepted(s.hist, s.seen, s.user.pkt))
    case Add =>
      var index := (s.cons + 1) % LIMIT;
      s.(cons := index, kernel := Waiting(index), hist := s.hist + [[]])
    case Wake =>
      var begin := if (s.kernel.index + 1) % LIMIT % 2 == 0 then 0 else s.width;
      s.(kernel := Walking(begin, begin, 0))
    case Read =>
      var p := Fetch(s.mem, s.kernel.ptr);
      s.(out := s.out + [p], kernel := s.kernel.(ptr := s.kernel.ptr + Size(p), taken := s.kernel.taken + 1))
    case Stop => s.(kernel := Clearing(s.kernel.begin))
    case Clear => s.(mem := Overwrite(s.mem, s.kernel.begin, [0]), kernel := Idle)
  }

  function Accepted(hist: seq<seq<Pkt>>, e: int, p: Pkt): seq<seq<Pkt>>
  {
    if 0 <= e < |hist| then hist[e := hist[e] + [p]] else hist
  }

  /** Freshly mapped memory is zero; the producer's index starts at -1. */
  predicate Init(s: State)
  {
    && s.width > 0 && |s.mem| == 2 * s.width && (forall i :: 0 <= i < |s.mem| ==> s.mem[i] == 0)
    && s.prod == s.cons == 0 && s.tindex == LIMIT - 1
    && s.user == Outside && s.kernel == Idle && s.out == []
    && s.hist == [[]] && s.seen == 0 && s.tseen == -1
  }

  ghost predicate Step(s: State, s': State)
  {
    exists a :: Enabled(s, a) && s' == Next(s, a)
  }

  ghost predicate Run(t: seq<State>)
  {
    && |t| > 0 && Init(t[0])
    && forall i, j :: 0 <= i && j == i + 1 && j < |t| ==> Step(t[i], t[j])
  }

  // ---------------------------------------------------------------- the invariant

  predicate PacketAt(mem: seq<nat>, at: nat, p: Pkt)
  {
    && Proper(p) && at + Size(p) <= |mem|
    && mem[at] == p.len && mem[at + 1] == p.nsec && mem[at + 2..at + Size(p)] == p.body
  }

  predicate LaidAt(mem: seq<nat>, at: nat, pkts: seq<Pkt>, k: nat)
    requires k < |pkts|
  {
    PacketAt(mem, at + Offset(pkts, k), pkts[k])
  }

  /** The packets lie one behind the other from `at`. */
  predicate Laid(mem: seq<nat>, at: nat, pkts: seq<Pkt>)
  {
    forall k :: 0 <= k < |pkts| ==> LaidAt(mem, at, pkts, k)
  }

  /** ... and are closed by a terminator inside the half. */
  predicate Framed(s: State, e: int)
    requires 0 <= e < |s.hist|
  {
    && Laid(s.mem, Base(s, e), s.hist[e])
    && Span(s.hist[e]) < s.width && |s.mem| == 2 * s.width
    && s.mem[Base(s, e) + Span(s.hist[e])] == 0
  }

  /** The producer's place and what it has put there so far. */
  predicate UserOk(s: State)
    requires 0 <= s.seen < |s.hist|
  {
    var base, pkts := Base(s, s.seen), s.hist[s.seen];
    match s.user
    case Outside => Framed(s, s.seen) && PlaceOk(s, 1)
    case Loaded(index, e) =>
      && Framed(s, s.seen) && PlaceOk(s, 1) && s.seen <= e <= Epoch(s) && index == e % LIMIT
    case Entered(index) => Framed(s, s.seen) && PlaceOk(s, 2) && index == s.seen % LIMIT
    case Writing(p, stage) =>
      && s.tseen == s.seen && Proper(p) && s.tptr == base + Span(pkts) && Span(pkts) + Size(p) + 2 < s.width
      && Laid(s.mem, base, pkts) && stage <= 3 && |s.mem| == 2 * s.width
      && (stage >= 1 ==> s.mem[s.tptr] == p.len)
      && (stage >= 2 ==> s.mem[s.tptr + 1] == p.nsec)
      && (stage >= 3 ==> s.mem[s.tptr + 2..s.tptr + Size(p)] == p.body)
  }

  /** The producer's write pointer belongs to the current epoch or to one not long past. */
  predicate PlaceOk(s: State, lag: nat)
    requires 0 <= s.seen < |s.hist|
  {
    && s.seen - lag <= s.tseen <= s.seen
    && (if s.tseen == s.seen then s.tptr == Base(s, s.seen) + Span(s.hist[s.seen]) else s.hist[s.seen] == [])
  }

  predicate KernelOk(s: State)
    requires Shaped(s)
  {
    var e := Epoch(s);
    match s.kernel
    case Idle => s.seen == e && s.mem[Base(s, e + 1)] == 0 && s.out == Flat(s.hist, e)
    case Waiting(index) =>
      && e > 0 && index == s.cons && s.out == Flat(s.hist, e - 1)
      && (if s.seen == e then Framed(s, e - 1) else s.seen == e - 1 && s.hist[e] == [] && s.mem[Base(s, e)] == 0)
    case Walking(begin, ptr, k) =>
      && e > 0 && s.seen == e && Framed(s, e - 1) && begin == Base(s, e - 1)
      && k <= |s.hist[e - 1]| && ptr == begin + Offset(s.hist[e - 1], k)
      && s.out == Flat(s.hist, e - 1) + s.hist[e - 1][..k]
    case Clearing(begin) => e > 0 && s.seen == e && begin == Base(s, e - 1) && s.out == Flat(s.hist, e)
  }

  predicate Shaped(s: State)
  {
    s.width > 0 && |s.mem| == 2 * s.width && |s.hist| > 0
  }

  predicate Inv(s: State)
  {
    && Shaped(s)
    && s.cons == Epoch(s) % LIMIT && s.prod == s.seen % LIMIT && s.tindex == s.tseen % LIMIT
    && 0 <= s.seen <= Epoch(s) <= s.seen + 1
    && UserOk(s) && KernelOk(s)
  }

  lemma InitInv(s: State)
    requires Init(s)
    ensures Inv(s)
  {
  }

  // ------------------------------------------------------------------ exclusivity

  /** The words the producer's next step may write. */
  predicate UserTouches(s: State, a: nat)
  {
    s.user.Writing? && s.tptr <= a <= s.tptr + Size(s.user.pkt)
  }

  /** The words the thread's next step may read or write. */
  predicate KernelTouches(s: State, a: nat)
  {
    match s.kernel
    case Walking(begin, ptr, k) =>
      if ptr < |s.mem| && s.mem[ptr] != 0 then ptr <= a < ptr + 2 + Words(s.mem[ptr]) else a == ptr
    case Clearing(begin) => a == begin
    case _ => false
  }

  lemma {:induction false} OffsetOrder(pkts: seq<Pkt>, k: nat, n: nat)
    requires k <= n <= |pkts|
    ensures Offset(pkts, k) <= Offset(pkts, n)
  {
    if k < n {
      OffsetOrder(pkts, k, n - 1);
    }
  }

  lemma {:induction false} OffsetSame(a: seq<Pkt>, b: seq<Pkt>, k: nat)
    requires k <= |a| && k <= |b| && a[..k] == b[..k]
    ensures Offset(a, k) == Offset(b, k)
  {
    if k > 0 {
      assert a[..k - 1] == a[..k][..k - 1] == b[..k][..k - 1] == b[..k - 1];
      assert a[k - 1] == a[..k][k - 1] == b[..k][k - 1] == b[k - 1];
      OffsetSame(a, b, k - 1);
    }
  }

  lemma FetchLaid(mem: seq<nat>, at: nat, pkts: seq<Pkt>, k: nat)
    requires Laid(mem, at, pkts) && k < |pkts|
    ensures var ptr := at + Offset(pkts, k);
            && ptr + Size(pkts[k]) == at + Offset(pkts, k + 1) <= at + Span(pkts) && ptr < |mem|
            && Fetch(mem, ptr) == pkts[k] && mem[ptr] == pkts[k].len > 0
  {
    OffsetOrder(pkts, k + 1, |pkts|);
    assert LaidAt(mem, at, pkts, k);
  }

  /** The walk stands on a packet not yet taken, or on the terminator, inside its half. */
  lemma WalkInside(s: State)
    requires Shaped(s) && KernelOk(s) && s.kernel.Walking?
    ensures var e, k := Epoch(s) - 1, s.kernel.taken;
            && s.kernel.begin <= s.kernel.ptr < s.kernel.begin + s.width
            && (if k < |s.hist[e]| then
                  && s.mem[s.kernel.ptr] == s.hist[e][k].len > 0
                  && s.kernel.ptr + Size(s.hist[e][k]) < s.kernel.begin + s.width
                  && Fetch(s.mem, s.kernel.ptr) == s.hist[e][k]
                else s.mem[s.kernel.ptr] == 0)
  {
    var e, k := Epoch(s) - 1, s.kernel.taken;
    if k < |s.hist[e]| {
      FetchLaid(s.mem, s.kernel.begin, s.hist[e], k);
    }
  }

  lemma UserInside(s: State, a: nat)
    requires Inv(s) && UserTouches(s, a)
    ensures Base(s, s.seen) <= a < Base(s, s.seen) + s.width
  {
  }

  lemma KernelInside(s: State, b: nat)
    requires Inv(s) && KernelTouches(s, b)
    ensures s.seen == Epoch(s) > 0 && Base(s, Epoch(s) - 1) <= b < Base(s, Epoch(s) - 1) + s.width
  {
    if s.kernel.Walking? {
      WalkInside(s);
    }
  }

  /** At any reachable moment they touch words of different halves. */
  lemma Exclusive(s: State, a: nat, b: nat)
    requires Inv(s) && UserTouches(s, a) && KernelTouches(s, b)
    ensures a != b
  {
    UserInside(s, a);
    KernelInside(s, b);
  }

  // ------------------------------------------------------------- every step keeps it

  lemma LimitParity(e: int)
    ensures (e % LIMIT) % 2 == e % 2
  {
    assert e == 2 * (0x8000_0000 * (e / LIMIT)) + e % LIMIT;
  }

  lemma LimitNext(e: int)
    ensures (e % LIMIT + 1) % LIMIT == (e + 1) % LIMIT
  {
  }

  /** Counters that differ by at most two are told apart by their 32-bit values. */
  lemma LimitApart(a: int, b: int)
    requires a - 2 <= b <= a
    ensures a % LIMIT == b % LIMIT <==> a == b
  {
  }

  /** Packets elsewhere do not notice a write. */
  lemma LaidKept(mem: seq<nat>, mem': seq<nat>, at: nat, pkts: seq<Pkt>)
    requires Laid(mem, at, pkts) && |mem| == |mem'|
    requires forall a :: at <= a < at + Span(pkts) && a < |mem| ==> mem'[a] == mem[a]
    ensures Laid(mem', at, pkts)
  {
    forall k | 0 <= k < |pkts|
      ensures LaidAt(mem', at, pkts, k)
    {
      var b := at + Offset(pkts, k);
      assert LaidAt(mem, at, pkts, k);
      OffsetOrder(pkts, k + 1, |pkts|);
      assert mem'[b + 2..b + Size(pkts[k])] == mem[b + 2..b + Size(pkts[k])];
    }
  }

  lemma FramedKept(s: State, s': State, e: int)
    requires 0 <= e < |s.hist| && e < |s'.hist| && s'.hist[e] == s.hist[e] && s'.width == s.width && |s'.mem| == |s.mem|
    requires Framed(s, e)
    requires forall a :: Base(s, e) <= a < Base(s, e) + s.width ==> s'.mem[a] == s.mem[a]
    ensures Framed(s', e)
  {
    LaidKept(s.mem, s'.mem, Base(s, e), s.hist[e]);
  }

  lemma LoadStep(s: State)
    requires Inv(s) && Enabled(s, Load)
    ensures Inv(Next(s, Load))
  {
    FramedKept(s, Next(s, Load), s.seen);
    KernelKept(s, Next(s, Load));
  }

  /** Entering a new epoch the producer finds its half empty, the other half complete. */
  lemma StoreNew(s: State)
    requires Inv(s) && Enabled(s, Store) && s.user.epoch != s.seen
    ensures UserOk(Next(s, Store)) && KernelOk(Next(s, Store))
  {
    var s', e := Next(s, Store), Epoch(s);
    assert s.kernel.Waiting? && s.hist[e] == [] && s.mem[Base(s, e)] == 0;
    FramedKept(s, s', e - 1);
  }

  lemma StoreAgain(s: State)
    requires Inv(s) && Enabled(s, Store) && s.user.epoch == s.seen
    ensures UserOk(Next(s, Store)) && KernelOk(Next(s, Store))
  {
    FramedKept(s, Next(s, Store), s.seen);
    KernelKept(s, Next(s, Store));
  }

  lemma StoreStep(s: State)
    requires Inv(s) && Enabled(s, Store)
    ensures Inv(Next(s, Store))
  {
    if s.user.epoch != s.seen {
      StoreNew(s);
    } else {
      StoreAgain(s);
    }
  }

  lemma OverwriteIs(mem: seq<nat>, at: nat, words: seq<nat>)
    requires at + |words| <= |mem|
    ensures var mem' := Overwrite(mem, at, words);
            && |mem'| == |mem| && mem'[at..at + |words|] == words
            && forall a :: 0 <= a < |mem| && !(at <= a < at + |words|) ==> mem'[a] == mem[a]
  {
  }

  lemma OverwriteOne(mem: seq<nat>, at: nat, word: nat)
    requires at < |mem|
    ensures Overwrite(mem, at, [word]) == mem[at := word]
  {
  }

  /** The thread's side does not depend on what the producer does to its half. */
  lemma KernelKept(s: State, s': State)
    requires s.width > 0 && |s.mem| == |s'.mem| == 2 * s.width && |s.hist| > 0 && KernelOk(s) && s.seen <= Epoch(s) <= s.seen + 1
    requires s'.width == s.width && s'.hist == s.hist && s'.cons == s.cons && s'.seen == s.seen && s'.kernel == s.kernel && s'.out == s.out
    requires forall a :: Base(s, s.seen + 1) <= a < Base(s, s.seen + 1) + s.width ==> s'.mem[a] == s.mem[a]
    ensures KernelOk(s')
  {
    var e := Epoch(s);
    if s.seen == e && e > 0 && (s.kernel.Waiting? || s.kernel.Walking?) {
      assert Base(s, e + 1) == Base(s, e - 1);
      FramedKept(s, s', e - 1);
    }
  }

  /** A write by the producer inside its own half, beyond the packets already there. */
  lemma WriteKept(s: State, s': State, at: nat, words: seq<nat>)
    requires Shaped(s) && 0 <= s.seen <= Epoch(s) <= s.seen + 1 && UserOk(s) && KernelOk(s) && s.user.Writing? && s.tptr <= at && at + |words| <= s.tptr + Size(s.user.pkt) + 1
    requires s' == s.(mem := Overwrite(s.mem, at, words), user := s'.user)
    ensures |s'.mem| == |s.mem| && KernelOk(s') && Laid(s'.mem, Base(s, s.seen), s.hist[s.seen])
    ensures forall a :: 0 <= a < |s.mem| && !(at <= a < at + |words|) ==> s'.mem[a] == s.mem[a]
    ensures s'.mem[at..at + |words|] == words
  {
    OverwriteIs(s.mem, at, words);
    LaidKept(s.mem, s'.mem, Base(s, s.seen), s.hist[s.seen]);
    KernelKept(s, s');
  }

  /** An injection is accepted exactly when it fits, with a terminator, behind the packets already
      accepted since the last swap. */
  lemma AcceptIff(s: State, p: Pkt)
    requires Inv(s) && Enabled(s, Place(p))
    ensures Next(s, Place(p)).user.Writing? <==> Span(s.hist[s.seen]) + Size(p) + 2 < s.width
  {
    LimitParity(s.seen);
    LimitApart(s.seen, s.tseen);
  }

  /** The waiting thread goes on exactly when the producer has entered the new epoch. */
  lemma WakeIff(s: State)
    requires Inv(s) && s.kernel.Waiting?
    ensures Enabled(s, Wake) <==> s.seen == Epoch(s)
  {
    LimitApart(Epoch(s), s.seen);
  }

  lemma PlaceUser(s: State, p: Pkt)
    requires Inv(s) && Enabled(s, Place(p))
    ensures UserOk(Next(s, Place(p))) && Next(s, Place(p)).tindex == Next(s, Place(p)).tseen % LIMIT
  {
    LimitParity(s.seen);
    LimitApart(s.seen, s.tseen);
  }

  lemma PlaceStep(s: State, p: Pkt)
    requires Inv(s) && Enabled(s, Place(p))
    ensures Inv(Next(s, Place(p)))
  {
    PlaceUser(s, p);
    KernelKept(s, Next(s, Place(p)));
  }

  lemma WriteLenStep(s: State)
    requires Inv(s) && Enabled(s, WriteLen)
    ensures Inv(Next(s, WriteLen))
  {
    WriteKept(s, Next(s, WriteLen), s.tptr, [s.user.pkt.len]);
    assert Next(s, WriteLen).mem[s.tptr..s.tptr + 1][0] == s.user.pkt.len;
  }

  lemma WriteStampStep(s: State)
    requires Inv(s) && Enabled(s, WriteStamp)
    ensures Inv(Next(s, WriteStamp))
  {
    WriteKept(s, Next(s, WriteStamp), s.tptr + 1, [s.user.pkt.nsec]);
    assert Next(s, WriteStamp).mem[s.tptr + 1..s.tptr + 2][0] == s.user.pkt.nsec;
  }

  lemma WriteBodyStep(s: State)
    requires Inv(s) && Enabled(s, WriteBody)
    ensures Inv(Next(s, WriteBody))
  {
    WriteKept(s, Next(s, WriteBody), s.tptr + 2, s.user.pkt.body);
  }

  /** One more packet behind those already laid. */
  lemma LaidMore(mem: seq<nat>, at: nat, pkts: seq<Pkt>, p: Pkt)
    requires Laid(mem, at, pkts) && PacketAt(mem, at + Span(pkts), p)
    ensures Laid(mem, at, pkts + [p]) && Span(pkts + [p]) == Span(pkts) + Size(p)
  {
    var more := pkts + [p];
    OffsetSame(pkts, more, |pkts|);
    forall k | 0 <= k < |more|
      ensures LaidAt(mem, at, more, k)
    {
      if k < |pkts| {
        OffsetSame(pkts, more, k);
        assert LaidAt(mem, at, pkts, k);
      }
    }
  }

  /** A fully written packet closed by a terminator. */
  lemma Terminated(mem: seq<nat>, at: nat, pkts: seq<Pkt>, p: Pkt)
    requires Laid(mem, at, pkts) && PacketAt(mem, at + Span(pkts), p) && at + Span(pkts) + Size(p) < |mem|
    ensures var mem' := Overwrite(mem, at + Span(pkts) + Size(p), [0]);
            && |mem'| == |mem| && mem'[at + Span(pkts) + Size(p)] == 0
            && Laid(mem', at, pkts + [p]) && Span(pkts + [p]) == Span(pkts) + Size(p)
  {
    var end := at + Span(pkts) + Size(p);
    var mem' := Overwrite(mem, end, [0]);
    OverwriteIs(mem, end, [0]);
    assert mem'[end] == mem'[end..end + 1][0];
    LaidMore(mem, at, pkts, p);
    LaidKept(mem, mem', at, pkts + [p]);
  }

  /** The producer's half once the terminator is written. */
  lemma FinishFramed(s: State)
    requires Inv(s) && Enabled(s, Finish)
    ensures var s' := Next(s, Finish); |s'.mem| == |s.mem| && |s'.hist| == |s.hist| && Framed(s', s.seen)
    ensures var s' := Next(s, Finish); Span(s'.hist[s.seen]) == Span(s.hist[s.seen]) + Size(s.user.pkt)
  {
    assert PacketAt(s.mem, s.tptr, s.user.pkt);
    Terminated(s.mem, Base(s, s.seen), s.hist[s.seen], s.user.pkt);
  }

  lemma FinishKernel(s: State)
    requires Inv(s) && Enabled(s, Finish)
    ensures var s' := Next(s, Finish); |s'.mem| == |s.mem| && |s'.hist| == |s.hist| && KernelOk(s')
  {
    var s' := Next(s, Finish);
    var r := s.(mem := s'.mem);
    WriteKept(s, r, s.tptr + Size(s.user.pkt), [0]);
    AcceptKernel(r, s');
  }

  /** What is accepted now does not concern the half being walked. */
  lemma AcceptKernel(r: State, s': State)
    requires r.width > 0 && |r.mem| == 2 * r.width && |r.hist| > 0 && KernelOk(r) && 0 <= r.seen
    requires Epoch(r) - 1 <= r.seen <= Epoch(r) && s' == r.(tptr := s'.tptr, user := s'.user, hist := s'.hist)
    requires |s'.hist| == |r.hist| && forall e :: 0 <= e < |r.hist| && e != r.seen ==> s'.hist[e] == r.hist[e]
    ensures KernelOk(s')
  {
    var e := Epoch(r);
    FlatSame(r.hist, s'.hist, r.seen);
    if e > 0 {
      FlatSame(r.hist, s'.hist, e - 1);
    }
    if r.seen == e && e > 0 && (r.kernel.Waiting? || r.kernel.Walking?) {
      FramedKept(r, s', e - 1);
    }
  }

  lemma FinishStep(s: State)
    requires Inv(s) && Enabled(s, Finish)
    ensures Inv(Next(s, Finish))
  {
    FinishFramed(s);
    FinishKernel(s);
  }

  /** The producer's side does not depend on what the thread does to the other half. */
  lemma UserKept(s: State, s': State)
    requires Inv(s) && s'.width == s.width && |s'.mem| == |s.mem| && s'.user == s.user && s'.seen == s.seen && s'.tseen == s.tseen
    requires s'.tptr == s.tptr && |s.hist| <= |s'.hist| && s'.hist[s.seen] == s.hist[s.seen]
    requires forall a :: Base(s, s.seen) <= a < Base(s, s.seen) + s.width ==> s'.mem[a] == s.mem[a]
    ensures UserOk(s')
  {
    if s.user.Writing? {
      LaidKept(s.mem, s'.mem, Base(s, s.seen), s.hist[s.seen]);
      var from, to := s.tptr + 2, s.tptr + Size(s.user.pkt);
      assert s'.mem[from..to] == s.mem[from..to];
    } else {
      FramedKept(s, s', s.seen);
    }
  }

  lemma AddStep(s: State)
    requires Inv(s) && Enabled(s, Add)
    ensures Inv(Next(s, Add))
  {
    LimitNext(Epoch(s));
    UserKept(s, Next(s, Add));
    FlatSame(s.hist, Next(s, Add).hist, Epoch(s));
  }

  lemma WakeStep(s: State)
    requires Inv(s) && Enabled(s, Wake)
    ensures Inv(Next(s, Wake))
  {
    var e := Epoch(s);
    LimitApart(e, s.seen);
    LimitNext(e);
    LimitParity(e + 1);
    UserKept(s, Next(s, Wake));
    assert s.hist[e - 1][..0] == [];
  }

  lemma ReadKernel(s: State)
    requires Shaped(s) && KernelOk(s) && Enabled(s, Read)
    ensures KernelOk(Next(s, Read))
  {
    var s', e, k := Next(s, Read), Epoch(s) - 1, s.kernel.taken;
    WalkInside(s);
    hide Fetch, PacketAt;
    var pkts := s.hist[e];
    assert k < |pkts|;
    assert pkts[..k + 1] == pkts[..k] + [pkts[k]];
    assert s'.out == Flat(s.hist, e) + pkts[..k + 1];
    assert Offset(pkts, k + 1) == Offset(pkts, k) + Size(pkts[k]);
    FramedKept(s, s', e);
  }

  lemma ReadStep(s: State)
    requires Inv(s) && Enabled(s, Read)
    ensures Inv(Next(s, Read))
  {
    ReadKernel(s);
    UserKept(s, Next(s, Read));
  }

  lemma StopStep(s: State)
    requires Inv(s) && Enabled(s, Stop)
    ensures Inv(Next(s, Stop))
  {
    var e, k := Epoch(s) - 1, s.kernel.taken;
    WalkInside(s);
    UserKept(s, Next(s, Stop));
    assert s.hist[e][..k] == s.hist[e];
  }

  lemma ClearKernel(s: State)
    requires Shaped(s) && KernelOk(s) && Enabled(s, Clear)
    ensures var s' := Next(s, Clear); Shaped(s') && KernelOk(s')
    ensures var s' := Next(s, Clear);
            forall a :: Base(s, s.seen) <= a < Base(s, s.seen) + s.width ==> s'.mem[a] == s.mem[a]
  {
    OverwriteOne(s.mem, s.kernel.begin, 0);
  }

  lemma ClearStep(s: State)
    requires Inv(s) && Enabled(s, Clear)
    ensures Inv(Next(s, Clear))
  {
    ClearKernel(s);
    UserKept(s, Next(s, Clear));
  }

  lemma StepKept(s: State, a: Action)
    requires Inv(s) && Enabled(s, a)
    ensures Inv(Next(s, a))
  {
    match a {
      case Load => LoadStep(s);
      case Store => StoreStep(s);
      case Place(p) => PlaceStep(s, p);
      case WriteLen => WriteLenStep(s);
      case WriteStamp => WriteStampStep(s);
      case WriteBody => WriteBodyStep(s);
      case Finish => FinishStep(s);
      case Add => AddStep(s);
      case Wake => WakeStep(s);
      case Read => ReadStep(s);
      case Stop => StopStep(s);
      case Clear => ClearStep(s);
    }
  }

  lemma StepInv(s: State, s': State)
    requires Inv(s) && Step(s, s')
    ensures Inv(s')
  {
    var a :| Enabled(s, a) && s' == Next(s, a);
    StepKept(s, a);
  }

  /** Over every run the invariant holds, across any number of counter wraps. */
  lemma {:induction false} RunInv(t: seq<State>, i: nat)
    requires Run(t) && i < |t|
    ensures Inv(t[i])
  {
    if i > 0 {
      RunInv(t, i - 1);
      StepInv(t[i - 1], t[i]);
    } else {
      InitInv(t[0]);
    }
  }

  /** The packets walked over all swaps are a prefix, in order, of the accepted injections, and
      between walks they are all those accepted before the last swap. */
  lemma WalksInOrder(t: seq<State>, i: nat)
    requires Run(t) && i < |t|
    ensures |t[i].hist| > 0 && t[i].out <= Flat(t[i].hist, |t[i].hist|)
    ensures t[i].kernel.Idle? ==> t[i].out == Flat(t[i].hist, |t[i].hist| - 1)
  {
    RunInv(t, i);
    var s := t[i];
    var e := Epoch(s);
    assert Flat(s.hist, e + 1) == Flat(s.hist, e) + s.hist[e];
    if e > 0 {
      assert Flat(s.hist, e) == Flat(s.hist, e - 1) + s.hist[e - 1];
    }
    if s.kernel.Walking? {
      assert s.out <= Flat(s.hist, e);
    }
  }

  /** Over every run the two sides never touch the same word, and the walk, when it stops, has
      taken the whole half and stands on a terminator inside it. */
  lemma RunExclusive(t: seq<State>, i: nat, a: nat, b: nat)
    requires Run(t) && i < |t|
    ensures UserTouches(t[i], a) && KernelTouches(t[i], b) ==> a != b
    ensures Enabled(t[i], Stop) ==>
              var k := t[i].kernel;
              && k.begin <= k.ptr < k.begin + t[i].width <= |t[i].mem| && t[i].mem[k.ptr] == 0
              && |t[i].hist| > 1 && k.taken == |t[i].hist[Epoch(t[i]) - 1]|
  {
    RunInv(t, i);
    if UserTouches(t[i], a) && KernelTouches(t[i], b) {
      Exclusive(t[i], a, b);
    }
    if t[i].kernel.Walking? {
      WalkInside(t[i]);
    }
  }
}
