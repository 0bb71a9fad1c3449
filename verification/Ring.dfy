// The single-producer single-consumer ring of ext/easywsclient/SPSC.h as two step machines that
// share memory: every load, every copied byte and every index store is a step of its own, and the
// steps of the two sides interleave in any order (sequentially consistent memory is assumed).
module Ring {
  import opened Bytes

  // ---- Index arithmetic, as the source does it in 32 bits ----

  function Add32(a: nat, b: nat): nat {
    (a + b) % U32
  }

  function Sub32(a: nat, b: nat): nat
    requires b <= U32
  {
    (a + U32 - b) % U32
  }

  function CalcSize(cap: nat, readIndex: nat, writeIndex: nat): nat
    requires readIndex <= cap < U32
  {
    if writeIndex >= readIndex then writeIndex - readIndex else Sub32(Add32(writeIndex, cap), readIndex)
  }

  function Capacity(cap: nat, size: nat): nat
    requires size < U32
  {
    var avail := Sub32(cap, size);
    if avail <= 1 then 0 else avail - 1
  }

  // How much of a write of len bytes is taken.
  function Accepted(cap: nat, size: nat, len: nat): (n: nat)
    requires size < U32
    ensures n <= len
  {
    if Capacity(cap, size) == 0 then 0 else Min(Capacity(cap, size) - 1, len)
  }

  // Where byte j of a copy that starts at an index lies: up to the top, then from the bottom.
  function Cell(cap: nat, index: nat, j: nat): nat
    requires index <= cap
  {
    if j < cap - index then index + j else j - (cap - index)
  }

  // The index stored after a copy of n bytes.
  function Advance(cap: nat, index: nat, n: nat): nat
    requires index <= cap
  {
    if n <= cap - index then index + n else n - (cap - index)
  }

  // ---- Indices stand for counts of bytes ----

  // The index after a bytes in all: position 0 is index cap, except at the very start.
  function Idx(cap: nat, a: nat): (i: nat)
    requires 0 < cap
    ensures i <= cap
  {
    if a == 0 then 0 else (a - 1) % cap + 1
  }

  // Occupancy never passes cap - 2.
  predicate Fit(cap: nat, r: nat, w: nat) {
    r <= w && (w == r || w - r + 2 <= cap)
  }

  lemma ModUnique(a: int, q: int, r: int, c: nat)
    requires 0 < c && a == q * c + r && 0 <= r < c
    ensures a % c == r
  {
    var q' := a / c;
    assert a == q' * c + a % c;
    assert (q - q') * c == a % c - r;
    if q < q' {
      MulMono(q - q', -1, c);
      assert false;
    } else if q' < q {
      MulMono(1, q - q', c);
      assert false;
    }
  }

  lemma MulMono(x: int, y: int, c: nat)
    requires x <= y
    ensures x * c <= y * c
  {
  }

  lemma AddMod(a: nat, n: nat, c: nat)
    requires 0 < c && n <= c
    ensures (a + n) % c == if a % c + n < c then a % c + n else a % c + n - c
  {
    var q := a / c;
    assert a == q * c + a % c;
    if a % c + n < c {
      ModUnique(a + n, q, a % c + n, c);
    } else {
      assert (q + 1) * c == q * c + c;
      ModUnique(a + n, q + 1, a % c + n - c, c);
    }
  }

  lemma ModDistinct(a: nat, b: nat, c: nat)
    requires 0 < c && a < b < a + c
    ensures a % c != b % c
  {
    AddMod(a, b - a, c);
  }

  lemma SmallMod(a: nat, c: nat)
    requires a < c
    ensures a % c == a
  {
  }

  lemma CellMod(cap: nat, a: nat, j: nat)
    requires 0 < cap && j < cap
    ensures Cell(cap, Idx(cap, a), j) == (a + j) % cap < cap
  {
    if a == 0 {
      SmallMod(j, cap);
    } else {
      AddMod(a - 1, j + 1, cap);
    }
  }

  lemma AdvanceIdx(cap: nat, a: nat, n: nat)
    requires 0 < cap && n < cap
    ensures Advance(cap, Idx(cap, a), n) == Idx(cap, a + n)
  {
    if a == 0 {
      if n != 0 {
        SmallMod(n - 1, cap);
      }
    } else {
      AddMod(a - 1, n, cap);
    }
  }

  // calcSize is the exact difference of the counts, on current indices and on stale ones alike,
  // although index cap stands for position 0 and the addition may wrap around 32 bits.
  lemma CalcSizeExact(cap: nat, r: nat, w: nat)
    requires 0 < cap < U32 && Fit(cap, r, w)
    ensures CalcSize(cap, Idx(cap, r), Idx(cap, w)) == w - r
  {
    if r == 0 {
      if w != 0 {
        SmallMod(w - 1, cap);
      }
    } else {
      AddMod(r - 1, w - r, cap);
      WrapExact(cap, Idx(cap, r), Idx(cap, w));
    }
  }

  lemma WrapExact(cap: nat, readIndex: nat, writeIndex: nat)
    requires readIndex <= cap < U32 && writeIndex <= cap
    ensures CalcSize(cap, readIndex, writeIndex) ==
            if writeIndex >= readIndex then writeIndex - readIndex else writeIndex + cap - readIndex
  {
  }

  lemma AcceptedExact(cap: nat, size: nat, len: nat)
    requires cap < U32 && (size == 0 || size + 2 <= cap)
    ensures Accepted(cap, size, len) == if cap < size + 2 then 0 else Min(cap - 2 - size, len)
  {
  }

  // ---- The two machines ----

  // snap is a history: how many bytes had been read, or written, when the index was loaded.
  datatype Writer =
    | WDone(n: nat)                                                  // idle, with the last result
    | WLoadedOwn(data: seq<byte>, wi: nat)                           // size(): own index loaded
    | WLoadedBoth(data: seq<byte>, wi: nat, ri: nat, snap: nat)      // size(): the other's index too
    | WCopying(data: seq<byte>, wi: nat, done: nat)                  // data trimmed, index loaded again

  datatype Reader =
    | RDone(buf: seq<byte>)
    | RLoadedWrite(maxLen: nat, wi: nat, snap: nat)
    | RLoadedBoth(maxLen: nat, wi: nat, ri: nat, snap: nat)
    | RCopying(len: nat, ri: nat, buf: seq<byte>)

  // sent and got are the bytes of completed writes and reads, offered those of all writes called.
  datatype Ring = Ring(
    cap: nat, mem: seq<byte>, readIndex: nat, writeIndex: nat, w: Writer, r: Reader,
    sent: seq<byte>, got: seq<byte>, offered: seq<byte>)

  function Empty(cap: nat, mem: seq<byte>): Ring {
    Ring(cap, mem, 0, 0, WDone(0), RDone([]), [], [], [])
  }

  // Accesses outside the memory would be undefined; CopiesInBounds shows that there are none.
  function Put(mem: seq<byte>, c: nat, b: byte): seq<byte> {
    if c < |mem| then mem[c := b] else mem
  }

  function Get(mem: seq<byte>, c: nat): byte {
    if c < |mem| then mem[c] else 0
  }

  predicate Indices(s: Ring) {
    && 0 < s.cap < U32
    && s.readIndex <= s.cap && s.writeIndex <= s.cap
    && (s.w.WLoadedBoth? ==> s.w.ri <= s.cap && s.w.wi <= s.cap)
    && (s.w.WCopying? ==> s.w.wi <= s.cap)
    && (s.r.RLoadedBoth? ==> s.r.ri <= s.cap && s.r.wi <= s.cap)
    && (s.r.RCopying? ==> s.r.ri <= s.cap)
  }

  datatype Event = WriteCall(data: seq<byte>) | WriterMoves | ReadCall(maxLen: nat) | ReaderMoves

  predicate Enabled(s: Ring, ev: Event) {
    && Indices(s)
    && match ev
       case WriteCall(_) => s.w.WDone?
       case WriterMoves => !s.w.WDone?
       case ReadCall(_) => s.r.RDone?
       case ReaderMoves => !s.r.RDone?
  }

  function WriterStep(s: Ring): Ring
    requires Indices(s) && !s.w.WDone?
  {
    match s.w
    case WLoadedOwn(data, wi) => s.(w := WLoadedBoth(data, wi, s.readIndex, |s.got|))
    case WLoadedBoth(data, wi, ri, _) =>
      var size := CalcSize(s.cap, ri, wi);
      if Capacity(s.cap, size) == 0 then s.(w := WDone(0))
      else s.(w := WCopying(data[..Accepted(s.cap, size, |data|)], s.writeIndex, 0))
    case WCopying(data, wi, done) =>
      if done < |data| then
        s.(mem := Put(s.mem, Cell(s.cap, wi, done), data[done]), w := WCopying(data, wi, done + 1))
      else
        s.(writeIndex := Advance(s.cap, wi, |data|), sent := s.sent + data, w := WDone(|data|))
  }

  function ReaderStep(s: Ring): Ring
    requires Indices(s) && !s.r.RDone?
  {
    match s.r
    case RLoadedWrite(maxLen, wi, snap) => s.(r := RLoadedBoth(maxLen, wi, s.readIndex, snap))
    case RLoadedBoth(maxLen, wi, ri, _) =>
      var len := Min(CalcSize(s.cap, ri, wi), maxLen);
      if len == 0 then s.(r := RDone([])) else s.(r := RCopying(len, s.readIndex, []))
    case RCopying(len, ri, buf) =>
      if |buf| < len then
        s.(r := RCopying(len, ri, buf + [Get(s.mem, Cell(s.cap, ri, |buf|))]))
      else
        s.(readIndex := Advance(s.cap, ri, len), got := s.got + buf, r := RDone(buf))
  }

  function Step(s: Ring, ev: Event): Ring
    requires Enabled(s, ev)
  {
    match ev
    case WriteCall(data) => s.(w := WLoadedOwn(data, s.writeIndex), offered := s.offered + data)
    case WriterMoves => WriterStep(s)
    case ReadCall(maxLen) => s.(r := RLoadedWrite(maxLen, s.writeIndex, |s.sent|))
    case ReaderMoves => ReaderStep(s)
  }

  // ---- What every step keeps ----

  ghost predicate Holds(s: Ring, from: nat, to: nat, bytes: seq<byte>)
    requires 0 < s.cap && |s.mem| == s.cap && from <= to && |bytes| == to - from
  {
    forall k :: from <= k < to ==> s.mem[k % s.cap] == bytes[k - from]
  }

  ghost predicate WriterInv(s: Ring)
    requires 0 < s.cap && |s.mem| == s.cap && |s.got| <= |s.sent|
  {
    var R, W := |s.got|, |s.sent|;
    match s.w
    case WDone(_) => true
    case WLoadedOwn(_, wi) => wi == Idx(s.cap, W)
    case WLoadedBoth(_, wi, ri, snap) => wi == Idx(s.cap, W) && snap <= R && ri == Idx(s.cap, snap) && Fit(s.cap, snap, W)
    case WCopying(data, wi, done) =>
      && wi == Idx(s.cap, W) && done <= |data| && Fit(s.cap, R, W + |data|)
      && Holds(s, W, W + done, data[..done])
  }

  ghost predicate ReaderInv(s: Ring)
    requires 0 < s.cap && |s.got| <= |s.sent|
  {
    var R, W := |s.got|, |s.sent|;
    match s.r
    case RDone(_) => true
    case RLoadedWrite(_, wi, snap) => R <= snap <= W && wi == Idx(s.cap, snap)
    case RLoadedBoth(_, wi, ri, snap) => R <= snap <= W && wi == Idx(s.cap, snap) && ri == Idx(s.cap, R)
    case RCopying(len, ri, buf) =>
      && ri == Idx(s.cap, R) && 0 < len && R + len <= W
      && |buf| <= len && buf == s.sent[R..R + |buf|]
  }

  ghost predicate Shared(s: Ring) {
    && 0 < s.cap < U32 && |s.mem| == s.cap
    && s.got <= s.sent && Fit(s.cap, |s.got|, |s.sent|)
    && s.readIndex == Idx(s.cap, |s.got|) && s.writeIndex == Idx(s.cap, |s.sent|)
    && Holds(s, |s.got|, |s.sent|, s.sent[|s.got|..])
  }

  ghost predicate Inv(s: Ring) {
    Shared(s) && WriterInv(s) && ReaderInv(s)
  }

  lemma EmptyInv(cap: nat, mem: seq<byte>)
    requires 0 < cap < U32 && |mem| == cap
    ensures Inv(Empty(cap, mem))
  {
  }

  lemma InvIndices(s: Ring)
    requires Inv(s)
    ensures Indices(s)
  {
  }

  // Storing byte done of a write disturbs neither the bytes waiting nor those stored before it.
  lemma CopyOne(s: Ring)
    requires Inv(s) && s.w.WCopying? && s.w.done < |s.w.data|
    ensures Indices(s) && Inv(WriterStep(s))
  {
    var cap, R, W := s.cap, |s.got|, |s.sent|;
    var data, done := s.w.data, s.w.done;
    CellMod(cap, W, done);
    var t := WriterStep(s);
    assert t.mem == s.mem[(W + done) % cap := data[done]];
    forall k | R <= k < W + done
      ensures t.mem[k % cap] == s.mem[k % cap]
    {
      ModDistinct(k, W + done, cap);
    }
    assert Holds(t, R, W, s.sent[R..]);
    forall k | W <= k < W + (done + 1)
      ensures t.mem[k % cap] == data[..done + 1][k - W]
    {
      if k < W + done {
        assert s.mem[k % cap] == data[..done][k - W];
      }
    }
  }

  lemma StoreWrite(s: Ring)
    requires Inv(s) && s.w.WCopying? && s.w.done == |s.w.data|
    ensures Indices(s) && Inv(WriterStep(s))
  {
    var data, R, W := s.w.data, |s.got|, |s.sent|;
    var t := WriterStep(s);
    AdvanceIdx(s.cap, W, |data|);
    assert data[..|data|] == data;
    forall k | R <= k < |t.sent|
      ensures s.mem[k % s.cap] == t.sent[R..][k - R]
    {
      if k < W {
        assert s.mem[k % s.cap] == s.sent[R..][k - R];
      } else {
        assert s.mem[k % s.cap] == data[..|data|][k - W];
      }
    }
  }

  // Both indices have been loaded, the other side's perhaps long ago.
  ghost predicate Loaded(s: Ring) {
    && Indices(s) && s.w.WLoadedBoth? && Fit(s.cap, s.w.snap, |s.sent|)
    && s.w.wi == Idx(s.cap, |s.sent|) && s.w.ri == Idx(s.cap, s.w.snap)
  }

  // What a write then takes.
  lemma LoadedTakes(s: Ring)
    requires Loaded(s)
    ensures var n := Accepted(s.cap, |s.sent| - s.w.snap, |s.w.data|);
            && n == (if s.cap < |s.sent| - s.w.snap + 2 then 0 else Min(s.cap - 2 - (|s.sent| - s.w.snap), |s.w.data|))
            && (WriterStep(s) == s.(w := WCopying(s.w.data[..n], s.writeIndex, 0)) || (WriterStep(s) == s.(w := WDone(0)) && n == 0))
  {
    CalcSizeExact(s.cap, s.w.snap, |s.sent|);
    AcceptedExact(s.cap, |s.sent| - s.w.snap, |s.w.data|);
  }

  // The write is trimmed to the room seen, which can only have grown since.
  lemma TrimWrite(s: Ring)
    requires Inv(s) && s.w.WLoadedBoth?
    ensures Loaded(s) && Inv(WriterStep(s))
  {
    LoadedTakes(s);
  }

  lemma WriterKeeps(s: Ring)
    requires Inv(s) && !s.w.WDone?
    ensures Indices(s) && Inv(WriterStep(s))
  {
    match s.w
    case WLoadedOwn(_, _) =>
    case WLoadedBoth(data, wi, ri, snap) => TrimWrite(s);
    case WCopying(data, wi, done) =>
      if done < |data| {
        CopyOne(s);
      } else {
        StoreWrite(s);
      }
  }

  lemma ReadOne(s: Ring)
    requires Inv(s) && s.r.RCopying? && |s.r.buf| < s.r.len
    ensures Indices(s) && Inv(ReaderStep(s))
  {
    var R, n := |s.got|, |s.r.buf|;
    CellMod(s.cap, R, n);
    assert s.mem[(R + n) % s.cap] == s.sent[R..][R + n - R];
    assert s.sent[R..R + n + 1] == s.sent[R..R + n] + [s.sent[R + n]];
  }

  lemma StoreRead(s: Ring)
    requires Inv(s) && s.r.RCopying? && |s.r.buf| == s.r.len
    ensures Indices(s) && Inv(ReaderStep(s))
  {
    var R, n := |s.got|, |s.r.buf|;
    var t := ReaderStep(s);
    AdvanceIdx(s.cap, R, n);
    assert t.got == s.sent[..R + n];
    forall k | R + n <= k < |s.sent|
      ensures s.mem[k % s.cap] == s.sent[R + n..][k - (R + n)]
    {
      assert s.mem[k % s.cap] == s.sent[R..][k - R];
    }
  }

  lemma TrimRead(s: Ring)
    requires Inv(s) && s.r.RLoadedBoth?
    ensures Indices(s) && Inv(ReaderStep(s))
  {
    CalcSizeExact(s.cap, |s.got|, s.r.snap);
  }

  lemma ReaderKeeps(s: Ring)
    requires Inv(s) && !s.r.RDone?
    ensures Indices(s) && Inv(ReaderStep(s))
  {
    match s.r
    case RLoadedWrite(_, _, _) =>
    case RLoadedBoth(maxLen, wi, ri, snap) => TrimRead(s);
    case RCopying(len, ri, buf) =>
      if |buf| < len {
        ReadOne(s);
      } else {
        StoreRead(s);
      }
  }

  lemma StepKeeps(s: Ring, ev: Event)
    requires Inv(s) && Enabled(s, ev)
    ensures Inv(Step(s, ev))
  {
    match ev
    case WriteCall(_) =>
    case WriterMoves => WriterKeeps(s);
    case ReadCall(_) =>
    case ReaderMoves => ReaderKeeps(s);
  }

  // ---- Runs ----

  predicate IsRun(s: Ring, evs: seq<Event>)
    decreases |evs|
  {
    evs == [] || (Enabled(s, evs[0]) && IsRun(Step(s, evs[0]), evs[1..]))
  }

  function After(s: Ring, evs: seq<Event>): Ring
    requires IsRun(s, evs)
    decreases |evs|
  {
    if evs == [] then s else After(Step(s, evs[0]), evs[1..])
  }

  lemma {:induction false} RunKeeps(s: Ring, evs: seq<Event>)
    requires Inv(s) && IsRun(s, evs)
    ensures Inv(After(s, evs))
    decreases |evs|
  {
    if evs != [] {
      StepKeeps(s, evs[0]);
      RunKeeps(Step(s, evs[0]), evs[1..]);
    }
  }

  // The bytes that lie between two indices.
  function Between(mem: seq<byte>, readIndex: nat, writeIndex: nat): seq<byte>
    requires readIndex <= |mem| && writeIndex <= |mem|
  {
    if readIndex <= writeIndex then mem[readIndex..writeIndex] else mem[readIndex..] + mem[..writeIndex]
  }

  lemma BetweenCells(mem: seq<byte>, readIndex: nat, writeIndex: nat, j: nat)
    requires readIndex <= |mem| && writeIndex <= |mem| && j < |Between(mem, readIndex, writeIndex)|
    ensures Cell(|mem|, readIndex, j) < |mem| && Between(mem, readIndex, writeIndex)[j] == mem[Cell(|mem|, readIndex, j)]
  {
  }

  lemma BetweenSize(mem: seq<byte>, readIndex: nat, writeIndex: nat)
    requires readIndex <= |mem| < U32 && writeIndex <= |mem|
    ensures |Between(mem, readIndex, writeIndex)| == CalcSize(|mem|, readIndex, writeIndex)
  {
  }

  lemma InvBetween(s: Ring)
    requires Inv(s)
    ensures s.got + Between(s.mem, s.readIndex, s.writeIndex) == s.sent
  {
    var R, W := |s.got|, |s.sent|;
    var b := Between(s.mem, s.readIndex, s.writeIndex);
    BetweenSize(s.mem, s.readIndex, s.writeIndex);
    CalcSizeExact(s.cap, R, W);
    forall j | 0 <= j < W - R
      ensures b[j] == s.sent[R + j]
    {
      BetweenCells(s.mem, s.readIndex, s.writeIndex, j);
      CellMod(s.cap, R, j);
      assert s.mem[(R + j) % s.cap] == s.sent[R..][R + j - R];
    }
  }

  // In every reachable state what reads have returned, followed by what lies between the
  // indices, is what writes have taken: nothing lost, doubled, reordered or torn.
  lemma FifoRefinement(cap: nat, mem: seq<byte>, evs: seq<Event>)
    requires 0 < cap < U32 && |mem| == cap && IsRun(Empty(cap, mem), evs)
    ensures var s := After(Empty(cap, mem), evs);
            && |s.mem| == s.cap == cap && s.readIndex <= cap && s.writeIndex <= cap
            && s.got + Between(s.mem, s.readIndex, s.writeIndex) == s.sent
            && CalcSize(cap, s.readIndex, s.writeIndex) == |s.sent| - |s.got| <= (if cap < 2 then 0 else cap - 2)
  {
    EmptyInv(cap, mem);
    RunKeeps(Empty(cap, mem), evs);
    RunCap(Empty(cap, mem), evs);
    var s := After(Empty(cap, mem), evs);
    InvBetween(s);
    CalcSizeExact(cap, |s.got|, |s.sent|);
  }

  lemma {:induction false} RunCap(s: Ring, evs: seq<Event>)
    requires IsRun(s, evs)
    ensures After(s, evs).cap == s.cap
    decreases |evs|
  {
    if evs != [] {
      RunCap(Step(s, evs[0]), evs[1..]);
    }
  }

  // ---- Race freedom ----

  // The cells a side has yet to copy.
  ghost predicate WriterTouches(s: Ring, c: nat)
    requires Indices(s)
  {
    s.w.WCopying? && exists j :: s.w.done <= j < |s.w.data| && c == Cell(s.cap, s.w.wi, j)
  }

  ghost predicate ReaderTouches(s: Ring, c: nat)
    requires Indices(s)
  {
    s.r.RCopying? && exists j :: |s.r.buf| <= j < s.r.len && c == Cell(s.cap, s.r.ri, j)
  }

  // No cell is being written and read at once, and none lies outside the memory.
  lemma RaceFreedom(cap: nat, mem: seq<byte>, evs: seq<Event>, c: nat)
    requires 0 < cap < U32 && |mem| == cap && IsRun(Empty(cap, mem), evs)
    ensures var s := After(Empty(cap, mem), evs);
            && Indices(s)
            && !(WriterTouches(s, c) && ReaderTouches(s, c))
            && (WriterTouches(s, c) || ReaderTouches(s, c) ==> c < cap)
  {
    EmptyInv(cap, mem);
    RunKeeps(Empty(cap, mem), evs);
    RunCap(Empty(cap, mem), evs);
    var s := After(Empty(cap, mem), evs);
    InvIndices(s);
    if WriterTouches(s, c) || ReaderTouches(s, c) {
      CopiesInBounds(s, c);
    }
    CopiesDisjoint(s, c);
  }

  lemma CopiesInBounds(s: Ring, c: nat)
    requires Inv(s) && Indices(s) && (WriterTouches(s, c) || ReaderTouches(s, c))
    ensures c < s.cap
  {
    if WriterTouches(s, c) {
      var j :| s.w.done <= j < |s.w.data| && c == Cell(s.cap, s.w.wi, j);
      CellMod(s.cap, |s.sent|, j);
    } else {
      var j :| |s.r.buf| <= j < s.r.len && c == Cell(s.cap, s.r.ri, j);
      CellMod(s.cap, |s.got|, j);
    }
  }

  lemma CellsApart(s: Ring, i: nat, j: nat)
    requires Inv(s) && Indices(s) && s.w.WCopying? && s.r.RCopying?
    requires s.w.done <= i < |s.w.data| && |s.r.buf| <= j < s.r.len
    ensures Cell(s.cap, s.w.wi, i) != Cell(s.cap, s.r.ri, j)
  {
    CellMod(s.cap, |s.sent|, i);
    CellMod(s.cap, |s.got|, j);
    ModDistinct(|s.got| + j, |s.sent| + i, s.cap);
  }

  lemma CopiesDisjoint(s: Ring, c: nat)
    requires Inv(s) && Indices(s)
    ensures !(WriterTouches(s, c) && ReaderTouches(s, c))
  {
    if s.w.WCopying? && s.r.RCopying? {
      forall i, j | s.w.done <= i < |s.w.data| && |s.r.buf| <= j < s.r.len
        ensures Cell(s.cap, s.w.wi, i) != Cell(s.cap, s.r.ri, j)
      {
        CellsApart(s, i, j);
      }
    }
  }

  // ---- Reservation ----

  // What a producer that looks at capacity() in this state sees.
  ghost function Observed(s: Ring): nat
    requires Inv(s)
  {
    SizeExact(s);
    Capacity(s.cap, CalcSize(s.cap, s.readIndex, s.writeIndex))
  }

  lemma SizeExact(s: Ring)
    requires Inv(s)
    ensures CalcSize(s.cap, s.readIndex, s.writeIndex) == |s.sent| - |s.got|
  {
    CalcSizeExact(s.cap, |s.got|, |s.sent|);
  }

  lemma ReservedNow(s: Ring, n: nat)
    requires Inv(s) && s.w.WDone? && n < Observed(s)
    ensures Reserved(s, |s.offered|, |s.sent|, n)
  {
    SizeExact(s);
    assert s.sent[|s.sent|..] == s.offered[|s.offered|..];
  }

  // Since a moment with o bytes offered and t sent, all that was offered has been taken or is
  // about to be, and what is left of a reservation of n bytes still fits.
  ghost predicate Reserved(s: Ring, o: nat, t: nat, n: nat) {
    && o <= |s.offered| <= o + n && t <= |s.sent|
    && var left := n - (|s.offered| - o);
       var free := s.cap - 2 - (|s.sent| - |s.got|);
       match s.w
       case WDone(_) => s.sent[t..] == s.offered[o..] && left <= free
       case WLoadedOwn(data, _) => s.sent[t..] + data == s.offered[o..] && left + |data| <= free
       case WLoadedBoth(data, _, _, snap) =>
         && s.sent[t..] + data == s.offered[o..] && left + |data| <= free
         && |data| <= s.cap - 2 - (|s.sent| - snap)
       case WCopying(data, _, _) => s.sent[t..] + data == s.offered[o..] && left + |data| <= free
  }

  lemma ReservedCall(s: Ring, data: seq<byte>, o: nat, t: nat, n: nat)
    requires Inv(s) && Enabled(s, WriteCall(data)) && Reserved(s, o, t, n)
    requires |s.offered| + |data| <= o + n
    ensures Reserved(Step(s, WriteCall(data)), o, t, n)
  {
    assert (s.offered + data)[o..] == s.offered[o..] + data;
  }

  lemma ReservedTrim(s: Ring, o: nat, t: nat, n: nat)
    requires Loaded(s) && Reserved(s, o, t, n)
    ensures Reserved(WriterStep(s), o, t, n)
  {
    LoadedTakes(s);
    assert s.w.data[..|s.w.data|] == s.w.data;
    if s.w.data == [] {
      assert s.sent[t..] + [] == s.sent[t..];
    }
  }

  lemma ReservedCopy(s: Ring, o: nat, t: nat, n: nat)
    requires Indices(s) && s.w.WCopying? && Reserved(s, o, t, n)
    ensures Reserved(WriterStep(s), o, t, n)
  {
    assert (s.sent + s.w.data)[t..] == s.sent[t..] + s.w.data;
  }

  lemma ReservedWriter(s: Ring, o: nat, t: nat, n: nat)
    requires Inv(s) && Indices(s) && !s.w.WDone? && Reserved(s, o, t, n)
    ensures Reserved(WriterStep(s), o, t, n)
  {
    match s.w
    case WLoadedOwn(_, _) =>
    case WLoadedBoth(_, _, _, _) => ReservedTrim(s, o, t, n);
    case WCopying(_, _, _) => ReservedCopy(s, o, t, n);
  }

  lemma ReservedReader(s: Ring, o: nat, t: nat, n: nat)
    requires Inv(s) && Enabled(s, ReaderMoves) && Reserved(s, o, t, n)
    ensures Reserved(Step(s, ReaderMoves), o, t, n)
  {
    var next := Step(s, ReaderMoves);
    assert next.w == s.w && next.sent == s.sent && next.offered == s.offered && |s.got| <= |next.got|;
  }

  lemma ReservedStep(s: Ring, ev: Event, o: nat, t: nat, n: nat)
    requires Inv(s) && Enabled(s, ev) && Reserved(s, o, t, n)
    requires |Step(s, ev).offered| <= o + n
    ensures Reserved(Step(s, ev), o, t, n)
  {
    match ev
    case WriteCall(data) => ReservedCall(s, data, o, t, n);
    case WriterMoves => ReservedWriter(s, o, t, n);
    case ReadCall(_) =>
    case ReaderMoves => ReservedReader(s, o, t, n);
  }

  lemma {:induction false} ReservedRun(s: Ring, evs: seq<Event>, o: nat, t: nat, n: nat)
    requires Inv(s) && IsRun(s, evs) && Reserved(s, o, t, n)
    requires |After(s, evs).offered| <= o + n
    ensures Reserved(After(s, evs), o, t, n)
    decreases |evs|
  {
    if evs != [] {
      StepKeeps(s, evs[0]);
      OfferedGrows(Step(s, evs[0]), evs[1..]);
      ReservedStep(s, evs[0], o, t, n);
      ReservedRun(Step(s, evs[0]), evs[1..], o, t, n);
    }
  }

  lemma {:induction false} OfferedGrows(s: Ring, evs: seq<Event>)
    requires IsRun(s, evs)
    ensures |s.offered| <= |After(s, evs).offered|
    decreases |evs|
  {
    if evs != [] {
      OfferedGrows(Step(s, evs[0]), evs[1..]);
    }
  }

  // A producer that has seen capacity() > n can write n bytes in any number of calls: each is
  // taken in full, whatever the reader does meanwhile.
  lemma Reservation(s: Ring, n: nat, evs: seq<Event>)
    requires Inv(s) && s.w.WDone? && IsRun(s, evs)
    requires n < Observed(s)
    requires |After(s, evs).offered| <= |s.offered| + n
    ensures var last := After(s, evs);
            && |s.sent| <= |last.sent| && |s.offered| <= |last.offered|
            && (last.w.WDone? ==> last.sent[|s.sent|..] == last.offered[|s.offered|..])
  {
    ReservedNow(s, n);
    ReservedRun(s, evs, |s.offered|, |s.sent|, n);
  }

  // A write is taken in full exactly when it is empty or capacity() is larger than it.
  lemma FullWriteExactly(cap: nat, size: nat, n: nat)
    requires cap < U32 && (size == 0 || size + 2 <= cap)
    ensures Accepted(cap, size, n) == n <==> n == 0 || n < Capacity(cap, size)
  {
  }

  // ---- Two writes behind one look at capacity() ----

  // The data of the writes called in a run, one after another.
  function Calls(evs: seq<Event>): seq<seq<byte>> {
    if evs == [] then [] else (if evs[0].WriteCall? then [evs[0].data] else []) + Calls(evs[1..])
  }

  // A run from s in which the producer makes exactly these writes and has completed them.
  ghost predicate Writes(s: Ring, evs: seq<Event>, data: seq<seq<byte>>) {
    IsRun(s, evs) && After(s, evs).w.WDone? && Calls(evs) == data
  }

  lemma {:induction false} RunConcat(s: Ring, xs: seq<Event>, ys: seq<Event>)
    requires IsRun(s, xs) && IsRun(After(s, xs), ys)
    ensures IsRun(s, xs + ys) && After(s, xs + ys) == After(After(s, xs), ys)
    ensures Calls(xs + ys) == Calls(xs) + Calls(ys)
    decreases |xs|
  {
    if xs == [] {
      assert xs + ys == ys;
    } else {
      assert (xs + ys)[1..] == xs[1..] + ys;
      RunConcat(Step(s, xs[0]), xs[1..], ys);
      Associative(if xs[0].WriteCall? then [xs[0].data] else [], Calls(xs[1..]), Calls(ys));
    }
  }

  lemma {:induction false} OfferedCalls(s: Ring, evs: seq<Event>)
    requires IsRun(s, evs)
    ensures After(s, evs).offered == s.offered + Join(Calls(evs))
    decreases |evs|
  {
    if evs == [] {
      assert s.offered + [] == s.offered;
    } else {
      OfferedCalls(Step(s, evs[0]), evs[1..]);
      if evs[0].WriteCall? {
        assert Calls(evs)[1..] == Calls(evs[1..]);
        Associative(s.offered, evs[0].data, Join(Calls(evs[1..])));
      } else {
        assert Calls(evs) == Calls(evs[1..]);
      }
    }
  }

  // What remains of a write under way when the reader does nothing.
  function WriterSteps(w: Writer): nat {
    match w
    case WDone(_) => 0
    case WLoadedOwn(data, _) => |data| + 3
    case WLoadedBoth(data, _, _, _) => |data| + 2
    case WCopying(data, _, done) => if done <= |data| then |data| - done + 1 else 1
  }

  lemma {:induction false} RunCons(s: Ring, ev: Event, rest: seq<Event>)
    requires Enabled(s, ev) && IsRun(Step(s, ev), rest)
    ensures IsRun(s, [ev] + rest) && After(s, [ev] + rest) == After(Step(s, ev), rest)
    ensures Calls([ev] + rest) == (if ev.WriteCall? then [ev.data] else []) + Calls(rest)
  {
    assert ([ev] + rest)[1..] == rest;
  }

  // What a write under way comes to when the reader is at rest.
  function Outcome(s: Ring): seq<byte>
    requires Inv(s)
  {
    match s.w
    case WDone(_) => []
    case WLoadedOwn(data, _) => data[..Accepted(s.cap, |s.sent| - |s.got|, |data|)]
    case WLoadedBoth(data, _, _, snap) => data[..Accepted(s.cap, |s.sent| - snap, |data|)]
    case WCopying(data, _, _) => data
  }

  lemma WriterOutcome(s: Ring)
    requires Inv(s) && !s.w.WDone?
    ensures Indices(s) && Inv(WriterStep(s)) && WriterSteps(WriterStep(s).w) < WriterSteps(s.w)
    ensures var t := WriterStep(s);
            t.got == s.got && t.cap == s.cap && t.sent + Outcome(t) == s.sent + Outcome(s)
  {
    WriterKeeps(s);
    if s.w.WLoadedBoth? {
      LoadedTakes(s);
    } else if s.w.WCopying? && s.w.done == |s.w.data| {
      assert (s.sent + s.w.data) + [] == s.sent + s.w.data;
    }
  }

  // The rest of a write under way with the reader at rest.
  lemma {:induction false} FinishWrite(s: Ring) returns (evs: seq<Event>)
    requires Inv(s)
    ensures IsRun(s, evs) && Calls(evs) == []
    ensures var t := After(s, evs); t.w.WDone? && t.got == s.got && t.cap == s.cap && t.sent == s.sent + Outcome(s)
    decreases WriterSteps(s.w)
  {
    evs := [];
    if s.w.WDone? {
      assert s.sent + [] == s.sent;
    } else {
      WriterOutcome(s);
      var next := Step(s, WriterMoves);
      var rest := FinishWrite(next);
      RunCons(s, WriterMoves, rest);
      assert [] + Calls(rest) == [];
      evs := [WriterMoves] + rest;
    }
  }

  // A whole write with the reader at rest takes as much as there is room for.
  lemma {:induction false} LoneWrite(s: Ring, data: seq<byte>) returns (evs: seq<Event>)
    requires Inv(s) && s.w.WDone?
    ensures Writes(s, evs, [data])
    ensures var t := After(s, evs); var n := Accepted(s.cap, |s.sent| - |s.got|, |data|);
            t.got == s.got && t.cap == s.cap && t.sent == s.sent + data[..n]
  {
    StepKeeps(s, WriteCall(data));
    var next := Step(s, WriteCall(data));
    var rest := FinishWrite(next);
    RunCons(s, WriteCall(data), rest);
    assert [data] + Calls(rest) == [data];
    evs := [WriteCall(data)] + rest;
  }

  // With the reader at rest, two writes of as much as capacity() said fall one byte short.
  lemma {:induction false} LoneWritesShort(s: Ring, a: seq<byte>, b: seq<byte>) returns (evs: seq<Event>)
    requires Inv(s) && s.w.WDone? && b != [] && |a| + |b| == Observed(s)
    ensures Writes(s, evs, [a, b]) && |After(s, evs).sent| == |s.sent| + |a| + |b| - 1
  {
    Shortfall(s, |a|, |b|);
    var xs := LoneWrite(s, a);
    var t := After(s, xs);
    RunKeeps(s, xs);
    var ys := LoneWrite(t, b);
    RunConcat(s, xs, ys);
    assert [a] + [b] == [a, b];
    evs := xs + ys;
  }

  lemma Shortfall(s: Ring, a: nat, b: nat)
    requires Inv(s) && 0 < b && a + b == Observed(s)
    ensures var size := |s.sent| - |s.got|;
            && size + a < U32 && Accepted(s.cap, size, a) == a && Accepted(s.cap, size + a, b) == b - 1
  {
    SizeExact(s);
    ShortByOne(s.cap, |s.sent| - |s.got|, a, b);
  }

  lemma ShortByOne(cap: nat, size: nat, a: nat, b: nat)
    requires cap < U32 && (size == 0 || size + 2 <= cap) && 0 < b && a + b == Capacity(cap, size)
    ensures size + a < U32 && Accepted(cap, size, a) == a && Accepted(cap, size + a, b) == b - 1
  {
    AcceptedExact(cap, size, a);
    AcceptedExact(cap, size + a, b);
  }

  // All the bytes of these writes have been taken, in order.
  ghost predicate TakenWhole(s: Ring, evs: seq<Event>, data: seq<seq<byte>>)
    requires IsRun(s, evs)
  {
    After(s, evs).sent == s.sent + Join(data)
  }

  lemma StrictGuard(s: Ring, evs: seq<Event>, data: seq<seq<byte>>)
    requires Inv(s) && s.w.WDone? && Writes(s, evs, data) && |Join(data)| < Observed(s)
    ensures TakenWhole(s, evs, data)
  {
    OfferedCalls(s, evs);
    Reservation(s, |Join(data)|, evs);
    SentGrows(s, evs);
    var last := After(s, evs);
    assert last.sent == s.sent + last.sent[|s.sent|..];
  }

  lemma {:induction false} SentGrows(s: Ring, evs: seq<Event>)
    requires IsRun(s, evs)
    ensures s.sent <= After(s, evs).sent
    decreases |evs|
  {
    if evs != [] {
      SentGrows(Step(s, evs[0]), evs[1..]);
    }
  }

  // Two writes behind the guard capacity() >= |a| + |b|: they are taken whole in every run,
  // whatever the reader does, exactly when the inequality is strict. The guard is one byte short.
  lemma GuardOneShort(s: Ring, a: seq<byte>, b: seq<byte>)
    requires Inv(s) && s.w.WDone? && b != [] && |a| + |b| <= Observed(s)
    ensures (forall evs :: Writes(s, evs, [a, b]) ==> TakenWhole(s, evs, [a, b])) <==> |a| + |b| < Observed(s)
  {
    TwoJoined(a, b);
    if |a| + |b| < Observed(s) {
      forall evs | Writes(s, evs, [a, b])
        ensures TakenWhole(s, evs, [a, b])
      {
        StrictGuard(s, evs, [a, b]);
      }
    } else {
      var evs := LoneWritesShort(s, a, b);
      assert Writes(s, evs, [a, b]) && !TakenWhole(s, evs, [a, b]);
    }
  }

  lemma TwoJoined(a: seq<byte>, b: seq<byte>)
    ensures Join([a, b]) == a + b
  {
    assert [a, b][1..] == [b] && [b][1..] == [];
    assert Join([b]) == b;
  }

  // ---- How much one call transfers ----

  // Where a read of so many bytes stands that was called with w bytes written and r read: it will
  // return the smaller of what it asked for and what was there.
  ghost predicate ReadUnderWay(s: Ring, w: nat, r: nat, maxLen: nat) {
    r <= w &&
    match s.r
    case RLoadedWrite(len, _, snap) => len == maxLen && snap == w && |s.got| == r
    case RLoadedBoth(len, _, _, snap) => len == maxLen && snap == w && |s.got| == r
    case RCopying(len, _, _) => len == (if w - r <= maxLen then w - r else maxLen) && |s.got| == r
    case RDone(buf) => |buf| == (if w - r <= maxLen then w - r else maxLen) && |s.got| == r + |buf| && s.got[r..] == buf
  }

  lemma ReadStarts(s: Ring, maxLen: nat)
    requires Inv(s) && Enabled(s, ReadCall(maxLen))
    ensures ReadUnderWay(Step(s, ReadCall(maxLen)), |s.sent|, |s.got|, maxLen)
  {
  }

  lemma ReadGoesOn(s: Ring, w: nat, r: nat, maxLen: nat)
    requires Inv(s) && Indices(s) && !s.r.RDone? && ReadUnderWay(s, w, r, maxLen)
    ensures ReadUnderWay(ReaderStep(s), w, r, maxLen)
  {
    match s.r
    case RLoadedBoth(_, _, _, snap) => CalcSizeExact(s.cap, |s.got|, snap);
    case RCopying(_, _, buf) => assert (s.got + buf)[r..] == buf;
    case _ =>
  }

  // No other read is called.
  predicate NoReadCall(evs: seq<Event>) {
    evs == [] || (!evs[0].ReadCall? && NoReadCall(evs[1..]))
  }

  lemma WriterLeavesReader(s: Ring, ev: Event)
    requires Enabled(s, ev) && (ev.WriteCall? || ev.WriterMoves?)
    ensures Step(s, ev).r == s.r && Step(s, ev).got == s.got
  {
  }

  lemma {:induction false} ReadRun(s: Ring, evs: seq<Event>, w: nat, r: nat, maxLen: nat)
    requires Inv(s) && IsRun(s, evs) && NoReadCall(evs) && ReadUnderWay(s, w, r, maxLen)
    ensures ReadUnderWay(After(s, evs), w, r, maxLen)
    decreases |evs|
  {
    if evs != [] {
      StepKeeps(s, evs[0]);
      if evs[0].ReaderMoves? {
        ReadGoesOn(s, w, r, maxLen);
      } else {
        WriterLeavesReader(s, evs[0]);
      }
      ReadRun(Step(s, evs[0]), evs[1..], w, r, maxLen);
    }
  }

  // In every run a read that has come to its end has returned exactly as many bytes as were waiting
  // when it was called, or as it asked for if these are fewer, whatever the writer did meanwhile.
  lemma ReadExactly(s: Ring, maxLen: nat, evs: seq<Event>)
    requires Inv(s) && Enabled(s, ReadCall(maxLen)) && IsRun(Step(s, ReadCall(maxLen)), evs) && NoReadCall(evs)
    ensures var t := After(Step(s, ReadCall(maxLen)), evs); var waiting := |s.sent| - |s.got|;
            t.r.RDone? ==>
              && |t.r.buf| == (if waiting <= maxLen then waiting else maxLen)
              && t.got == s.got + t.r.buf
  {
    var s1 := Step(s, ReadCall(maxLen));
    StepKeeps(s, ReadCall(maxLen));
    ReadStarts(s, maxLen);
    ReadRun(s1, evs, |s.sent|, |s.got|, maxLen);
    GotGrows(s1, evs);
    var t := After(s1, evs);
    assert t.got == t.got[..|s.got|] + t.got[|s.got|..];
  }

  lemma {:induction false} GotGrows(s: Ring, evs: seq<Event>)
    requires IsRun(s, evs)
    ensures s.got <= After(s, evs).got
    decreases |evs|
  {
    if evs != [] {
      GotGrows(Step(s, evs[0]), evs[1..]);
    }
  }

  // What remains of a read under way.
  function ReaderSteps(r: Reader): nat {
    match r
    case RDone(_) => 0
    case RLoadedWrite(maxLen, _, _) => maxLen + 4
    case RLoadedBoth(maxLen, _, _, _) => maxLen + 3
    case RCopying(len, _, buf) => if |buf| <= len then len - |buf| + 1 else 1
  }

  // The rest of a read with the writer at rest.
  lemma {:induction false} FinishRead(s: Ring) returns (evs: seq<Event>)
    requires Inv(s)
    ensures IsRun(s, evs) && NoReadCall(evs) && After(s, evs).r.RDone? && After(s, evs).w == s.w && After(s, evs).sent == s.sent
    decreases ReaderSteps(s.r)
  {
    evs := [];
    if !s.r.RDone? {
      ReaderKeeps(s);
      var next := Step(s, ReaderMoves);
      var rest := FinishRead(next);
      RunCons(s, ReaderMoves, rest);
      evs := [ReaderMoves] + rest;
      assert evs[1..] == rest;
    }
  }

  // From every reachable state a read with the writer at rest is a run that ends with exactly as many
  // bytes as were waiting, or as it asked for if these are fewer.
  lemma {:induction false} LoneRead(s: Ring, maxLen: nat) returns (evs: seq<Event>)
    requires Inv(s) && s.r.RDone?
    ensures IsRun(s, [ReadCall(maxLen)] + evs)
    ensures var t := After(s, [ReadCall(maxLen)] + evs); var waiting := |s.sent| - |s.got|;
            && t.r.RDone? && |t.r.buf| == (if waiting <= maxLen then waiting else maxLen)
            && t.got == s.got + t.r.buf && t.sent == s.sent && t.w == s.w
  {
    InvIndices(s);
    StepKeeps(s, ReadCall(maxLen));
    evs := FinishRead(Step(s, ReadCall(maxLen)));
    RunCons(s, ReadCall(maxLen), evs);
    ReadExactly(s, maxLen, evs);
  }

  // ---- And one write ----

  // Where a write stands that was called with w bytes written and at least r read: what it takes is
  // what there was room for at some moment since.
  ghost predicate WriteUnderWay(s: Ring, w: nat, r: nat, data: seq<byte>) {
    r <= |s.got| &&
    match s.w
    case WLoadedOwn(d, _) => d == data && |s.sent| == w
    case WLoadedBoth(d, _, _, snap) => d == data && |s.sent| == w && r <= snap <= |s.got|
    case WCopying(d, _, _) => |s.sent| == w && d <= data && Fills(s, w, r, |data|, |d|)
    case WDone(n) => n <= |data| && |s.sent| == w + n && s.sent[w..] == data[..n] && Fills(s, w, r, |data|, n)
  }

  // n is as much of len bytes as there was room for at some moment between r bytes read and now.
  ghost predicate Fills(s: Ring, w: nat, r: nat, len: nat, n: nat) {
    exists m: nat :: FillsAt(s, w, r, len, n, m)
  }

  ghost predicate FillsAt(s: Ring, w: nat, r: nat, len: nat, n: nat, m: nat) {
    r <= m <= |s.got| && m <= w && n == Taken(s.cap, w - m, len)
  }

  // Of a write behind so many bytes.
  function Taken(cap: nat, size: nat, len: nat): nat {
    if cap < size + 2 then 0 else if len <= cap - 2 - size then len else cap - 2 - size
  }

  lemma LaterFills(s: Ring, t: Ring, w: nat, r: nat, len: nat, n: nat)
    requires Fills(s, w, r, len, n) && t.cap == s.cap && |s.got| <= |t.got|
    ensures Fills(t, w, r, len, n)
  {
    var m: nat :| FillsAt(s, w, r, len, n, m);
    assert FillsAt(t, w, r, len, n, m);
  }

  lemma WriteLoads(s: Ring, w: nat, r: nat, data: seq<byte>)
    requires Inv(s) && s.w.WLoadedBoth? && WriteUnderWay(s, w, r, data)
    ensures Indices(s) && WriteUnderWay(WriterStep(s), w, r, data)
  {
    LoadedTakes(s);
    var n, t := Accepted(s.cap, |s.sent| - s.w.snap, |data|), WriterStep(s);
    assert FillsAt(t, w, r, |data|, n, s.w.snap);
    assert Fills(t, w, r, |data|, n);
    assert s.sent[w..] == data[..0];
  }

  lemma WriteGoesOn(s: Ring, w: nat, r: nat, data: seq<byte>)
    requires Inv(s) && Indices(s) && !s.w.WDone? && WriteUnderWay(s, w, r, data)
    ensures WriteUnderWay(WriterStep(s), w, r, data)
  {
    match s.w
    case WLoadedOwn(_, _) =>
    case WLoadedBoth(_, _, _, _) => WriteLoads(s, w, r, data);
    case WCopying(d, _, _) =>
      LaterFills(s, WriterStep(s), w, r, |data|, |d|);
      assert (s.sent + d)[w..] == d == data[..|d|];
  }

  predicate NoWriteCall(evs: seq<Event>) {
    evs == [] || (!evs[0].WriteCall? && NoWriteCall(evs[1..]))
  }

  lemma ReaderLeavesWriter(s: Ring, ev: Event)
    requires Enabled(s, ev) && (ev.ReadCall? || ev.ReaderMoves?)
    ensures var t := Step(s, ev); t.w == s.w && t.sent == s.sent && t.cap == s.cap && |s.got| <= |t.got|
  {
  }

  lemma WriteStays(s: Ring, t: Ring, w: nat, r: nat, data: seq<byte>)
    requires WriteUnderWay(s, w, r, data) && t.w == s.w && t.sent == s.sent && t.cap == s.cap && |s.got| <= |t.got|
    ensures WriteUnderWay(t, w, r, data)
  {
    match s.w
    case WCopying(d, _, _) => LaterFills(s, t, w, r, |data|, |d|);
    case WDone(n) => LaterFills(s, t, w, r, |data|, n);
    case _ =>
  }

  lemma {:induction false} WriteRun(s: Ring, evs: seq<Event>, w: nat, r: nat, data: seq<byte>)
    requires Inv(s) && IsRun(s, evs) && NoWriteCall(evs) && WriteUnderWay(s, w, r, data)
    ensures WriteUnderWay(After(s, evs), w, r, data)
    decreases |evs|
  {
    if evs != [] {
      StepKeeps(s, evs[0]);
      if evs[0].WriterMoves? {
        WriteGoesOn(s, w, r, data);
      } else {
        ReaderLeavesWriter(s, evs[0]);
        WriteStays(s, Step(s, evs[0]), w, r, data);
      }
      WriteRun(Step(s, evs[0]), evs[1..], w, r, data);
    }
  }

  // In every run a write that has come to its end has taken exactly as much as fits with two bytes
  // left free, counted at some moment between its call and its end, and reports how much.
  lemma WriteExactly(s: Ring, data: seq<byte>, evs: seq<Event>) returns (read: nat)
    requires Inv(s) && Enabled(s, WriteCall(data)) && IsRun(Step(s, WriteCall(data)), evs) && NoWriteCall(evs)
    ensures var t := After(Step(s, WriteCall(data)), evs); var w := |s.sent|;
            t.w.WDone? ==>
              && |s.got| <= read <= |t.got| && read <= w
              && t.w.n == Taken(s.cap, w - read, |data|) <= |data| && t.sent == s.sent + data[..t.w.n]
  {
    var s1 := Step(s, WriteCall(data));
    StepKeeps(s, WriteCall(data));
    WriteRun(s1, evs, |s.sent|, |s.got|, data);
    SentGrows(s1, evs);
    RunCap(s1, evs);
    var t := After(s1, evs);
    read := 0;
    if t.w.WDone? {
      assert Fills(t, |s.sent|, |s.got|, |data|, t.w.n);
      read :| FillsAt(t, |s.sent|, |s.got|, |data|, t.w.n, read);
      assert t.sent == t.sent[..|s.sent|] + t.sent[|s.sent|..];
    }
  }
}
