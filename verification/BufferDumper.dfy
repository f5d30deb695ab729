/**
 * The circular log dumper: a device ring polled with a running count, copied out in at most two
 * segments, and repositioned when the device has lapped the reader.
 *
 * The device is quiet during one poll. Runs of polls are about counts that never decrease; what a single
 * poll does with one that did is part of the model.
 */
module BufferDumper {
  import opened Bits

  datatype Config = Config(chunkSize: nat, metadataSize: nat, countOffset: nat, countSize: nat, numChunks: nat) {
    ghost predicate Valid() {
      && metadataSize < chunkSize < 0x1_0000_0000_0000_0000
      && countOffset + countSize <= metadataSize && countSize <= 8
    }

    function DataSize(): nat
      requires metadataSize < chunkSize
    {
      chunkSize - metadataSize
    }
  }

  /** The little-endian number in `bytes`. */
  function Count(bytes: seq<u8>): nat {
    if bytes == [] then 0 else bytes[0] + 0x100 * Count(bytes[1..])
  }

  function Pow256(k: nat): (p: nat)
    ensures p >= 1
  {
    if k == 0 then 1 else 0x100 * Pow256(k - 1)
  }

  /** The low `k` bytes of a number, least first. */
  function LittleEndian(n: nat, k: nat): (bytes: seq<u8>)
    ensures |bytes| == k
  {
    if k == 0 then [] else [n % 0x100] + LittleEndian(n / 0x100, k - 1)
  }

  /** A number that fits its bytes is read back from them. */
  lemma {:induction false} CountOfLittleEndian(n: nat, k: nat)
    requires n < Pow256(k)
    ensures Count(LittleEndian(n, k)) == n
    decreases k
  {
    if k > 0 {
      assert n / 0x100 < Pow256(k - 1);
      CountOfLittleEndian(n / 0x100, k - 1);
      assert LittleEndian(n, k)[1..] == LittleEndian(n / 0x100, k - 1);
    }
  }

  /** Every byte counts: the number read determines the bytes. */
  lemma {:induction false} LittleEndianOfCount(bytes: seq<u8>)
    ensures LittleEndian(Count(bytes), |bytes|) == bytes
    decreases |bytes|
  {
    if bytes != [] {
      LittleEndianOfCount(bytes[1..]);
      assert Count(bytes) % 0x100 == bytes[0] && Count(bytes) / 0x100 == Count(bytes[1..]);
    }
  }

  lemma {:induction false} CountBound(bytes: seq<u8>)
    ensures Count(bytes) < Pow256(|bytes|)
  {
    if bytes != [] {
      CountBound(bytes[1..]);
    }
  }

  lemma {:induction false} Pow256Monotone(j: nat, k: nat)
    requires j <= k
    ensures Pow256(j) <= Pow256(k)
    decreases k - j
  {
    if j < k {
      Pow256Monotone(j, k - 1);
    }
  }

  lemma CountFits(bytes: seq<u8>)
    requires |bytes| <= 8
    ensures Count(bytes) < 0x1_0000_0000_0000_0000
  {
    CountBound(bytes);
    Pow256Monotone(|bytes|, 8);
    assert Pow256(4) == 0x1_0000_0000 && Pow256(8) == 0x1_0000_0000_0000_0000;
  }

  /** The count is read into a 64-bit variable whose upper bytes are zero. */
  function LoggedCount(c: Config, chunk: seq<u8>): u64
    requires c.Valid() && |chunk| == c.chunkSize
  {
    CountFits(chunk[c.countOffset..c.countOffset + c.countSize]);
    Count(chunk[c.countOffset..c.countOffset + c.countSize])
  }

  /** The data area holds the last data-size bytes of `stream`, each at its position modulo the data size. */
  ghost predicate HoldsLast(c: Config, chunk: seq<u8>, stream: seq<u8>)
    requires c.Valid() && |chunk| == c.chunkSize
  {
    forall k :: 0 <= k < |stream| && |stream| - c.DataSize() <= k ==>
      chunk[c.metadataSize + k % c.DataSize()] == stream[k]
  }

  /**
   * The chunk of a device that has logged exactly `stream`: its metadata carries the count, least byte
   * first, and its data area the end of the stream.
   */
  ghost predicate Shows(c: Config, chunk: seq<u8>, stream: seq<u8>)
    requires c.Valid()
  {
    && |chunk| == c.chunkSize
    && |stream| < Pow256(c.countSize)
    && chunk[c.countOffset..c.countOffset + c.countSize] == LittleEndian(|stream|, c.countSize)
    && HoldsLast(c, chunk, stream)
  }

  lemma ShowsCount(c: Config, chunk: seq<u8>, stream: seq<u8>)
    requires c.Valid() && Shows(c, chunk, stream)
    ensures LoggedCount(c, chunk) == |stream|
  {
    CountOfLittleEndian(|stream|, c.countSize);
  }

  /** Where a poll starts reading: where it left off, or one full ring back if a lap boundary was crossed. */
  function StartOf(dumped: nat, logged: nat, d: nat): (start: nat)
    requires d > 0
    ensures dumped <= logged ==> logged - d <= start <= logged
  {
    assert dumped <= logged ==> logged - d <= dumped || logged / d > dumped / d by {
      if dumped <= logged { SameLap(dumped, logged, d); }
    }
    if logged > dumped && logged / d > dumped / d then logged - d else dumped
  }

  // ---- the window a poll covers ----

  lemma SameLap(dumped: nat, logged: nat, d: nat)
    requires d > 0 && dumped <= logged
    ensures logged / d > dumped / d ==> logged >= d
    ensures logged / d <= dumped / d ==> logged - dumped < d
  {
    DivMod(dumped, d);
    DivMod(logged, d);
    var a, b := dumped / d, logged / d;
    if b > a {
      MulMonotone(d, 1, b);
      assert b * d == d * b;
    } else {
      MulMonotone(d, b, a);
      assert a * d == d * a && b * d == d * b;
    }
  }

  /**
   * A poll's window is at most a ring long and covers every byte that is new and has survived; what it
   * leaves out of the new bytes is exactly what was overwritten; and what it repeats are the last
   * `d - (logged - dumped)` old bytes, exactly when a lap boundary was crossed without loss.
   */
  lemma WindowExact(dumped: nat, logged: nat, d: nat, k: nat)
    requires d > 0 && dumped <= logged
    ensures var start := StartOf(dumped, logged, d);
            && logged - d <= start <= logged
            && (dumped <= k < logged ==> (start <= k <==> logged - d <= k))
            && (start < dumped <==> logged / d > dumped / d && logged - dumped < d)
            && (start < dumped ==> dumped - start == d - (logged - dumped))
            && (start > dumped ==> start - dumped == logged - dumped - d)
  {
    SameLap(dumped, logged, d);
  }

  /** Copying exactly once is not what the code does: crossing a lap by one byte repeats the rest of the ring. */
  lemma RepeatsWithoutLoss()
    ensures StartOf(7, 8, 8) == 0
  {
  }

  /** The loss the overrun message reports, a 64-bit subtraction. */
  function ReportedLoss(dumped: u64, logged: u64, d: u64): u64 {
    (logged - dumped - d) % 0x1_0000_0000_0000_0000
  }

  /** The message is right exactly when a full ring or more was logged since the last poll. */
  lemma ReportedLossExact(dumped: u64, logged: u64, d: u64)
    requires d > 0 && dumped <= logged
    ensures ReportedLoss(dumped, logged, d) == (if logged - d > dumped then logged - d - dumped else 0)
            <==> logged - dumped >= d
  {
  }

  // ---- reading the ring ----

  /** The chunk offset of stream position `start`. */
  function RingOffset(c: Config, start: nat): (offset: nat)
    requires c.Valid()
    ensures c.metadataSize <= offset < c.chunkSize
  {
    start % c.DataSize() + c.metadataSize
  }

  /** The bytes read for `length` bytes from stream position `start`: one segment, or two across the wrap. */
  function ReadRing(c: Config, chunk: seq<u8>, start: nat, length: nat): (r: seq<u8>)
    requires c.Valid() && |chunk| == c.chunkSize && length <= c.DataSize()
    ensures |r| == length
  {
    var startOffset := RingOffset(c, start);
    var bytesToEnd := c.chunkSize - startOffset;
    if length <= bytesToEnd then chunk[startOffset..startOffset + length]
    else chunk[startOffset..] + chunk[c.metadataSize..c.metadataSize + length - bytesToEnd]
  }

  lemma ModAdd(s: nat, j: nat, d: nat)
    requires d > 0 && j < d
    ensures (s + j) % d == if s % d + j < d then s % d + j else s % d + j - d
  {
    DivMod(s, d);
    var q := s / d;
    if s % d + j < d {
      ModUnique(s + j, d, q, s % d + j);
    } else {
      assert (q + 1) * d == q * d + d;
      ModUnique(s + j, d, q + 1, s % d + j - d);
    }
  }

  /** Reading any part of the last ring's worth gives that part of the stream. */
  lemma ReadRingIsStream(c: Config, chunk: seq<u8>, stream: seq<u8>, start: nat)
    requires c.Valid() && |chunk| == c.chunkSize && HoldsLast(c, chunk, stream)
    requires start <= |stream| && |stream| - c.DataSize() <= start
    ensures ReadRing(c, chunk, start, |stream| - start) == stream[start..]
  {
    var d := c.DataSize();
    var r := ReadRing(c, chunk, start, |stream| - start);
    forall j | 0 <= j < |stream| - start ensures r[j] == stream[start + j] {
      ModAdd(start, j, d);
    }
  }

  // ---- one poll of one chunk, in binary format ----

  datatype ChunkState = ChunkState(dumped: u64, file: seq<u8>)

  /** OutOfRange: the poll would go on to synchronise and dump more than the ring holds. */
  datatype PollResult = Polled(state: ChunkState) | OutOfRange

  /** Rewriting the head of a file in place. */
  function Overwrite(file: seq<u8>, head: seq<u8>): seq<u8> {
    head + (if |file| > |head| then file[|head|..] else [])
  }

  /** The number of bytes to dump, a 64-bit subtraction. */
  function ToDump(start: nat, logged: u64): u64 {
    (logged - start) % 0x1_0000_0000_0000_0000
  }

  function Poll(c: Config, s: ChunkState, chunk: seq<u8>): PollResult
    requires c.Valid() && |chunk| == c.chunkSize
  {
    var logged := LoggedCount(c, chunk);
    var start := StartOf(s.dumped, logged, c.DataSize());
    if start == logged then Polled(s)
    else if ToDump(start, logged) > c.DataSize() then OutOfRange
    else Polled(ChunkState(logged, Overwrite(s.file, chunk[..c.metadataSize])
                                   + ReadRing(c, chunk, start, ToDump(start, logged))))
  }

  lemma ToDumpUp(start: nat, logged: u64)
    requires start <= logged
    ensures ToDump(start, logged) == logged - start
  {
    ModUnique(logged - start, 0x1_0000_0000_0000_0000, 0, logged - start);
  }

  lemma ToDumpDown(dumped: u64, logged: u64)
    requires logged < dumped
    ensures ToDump(dumped, logged) == 0x1_0000_0000_0000_0000 - (dumped - logged)
  {
    ModUnique(logged - dumped, 0x1_0000_0000_0000_0000, -1, 0x1_0000_0000_0000_0000 - (dumped - logged));
  }

  /** A poll stays inside the ring exactly unless the count went down, by less than all but a ring of 2^64. */
  lemma OutOfRangeIff(c: Config, s: ChunkState, chunk: seq<u8>)
    requires c.Valid() && |chunk| == c.chunkSize
    ensures var logged := LoggedCount(c, chunk);
            Poll(c, s, chunk).OutOfRange?
            <==> logged < s.dumped && s.dumped - logged < 0x1_0000_0000_0000_0000 - c.DataSize()
  {
    var logged, d := LoggedCount(c, chunk), c.DataSize();
    if s.dumped <= logged {
      WindowExact(s.dumped, logged, d, 0);
      ToDumpUp(StartOf(s.dumped, logged, d), logged);
    } else {
      ToDumpDown(s.dumped, logged);
    }
  }

  // ---- whole runs of polls ----

  /** The counts successive polls see never go down, and end within the stream. */
  ghost predicate Rising(counts: seq<nat>, from: nat, to: nat)
    decreases |counts|
  {
    from <= to && (counts != [] ==> from <= counts[0] && Rising(counts[1..], counts[0], to))
  }

  lemma RisingBound(counts: seq<nat>, from: nat, to: nat)
    requires Rising(counts, from, to) && counts != []
    ensures from <= counts[0] <= to
  {
    assert Rising(counts[1..], counts[0], to);
  }

  /** All windows of a run over the stream as it finally was, given the count each poll saw. */
  ghost function Windows(stream: seq<u8>, counts: seq<nat>, from: nat, d: nat): seq<u8>
    requires d > 0 && Rising(counts, from, |stream|)
    decreases |counts|
  {
    if counts == [] then []
    else
      RisingBound(counts, from, |stream|);
      stream[StartOf(from, counts[0], d)..counts[0]] + Windows(stream, counts[1..], counts[0], d)
  }

  /** What the device showed at each poll. */
  ghost predicate Seen(c: Config, chunks: seq<seq<u8>>, stream: seq<u8>, counts: seq<nat>, from: nat)
    requires c.Valid()
  {
    && |chunks| == |counts|
    && Rising(counts, from, |stream|)
    && forall k :: 0 <= k < |counts| ==> counts[k] <= |stream| && Shows(c, chunks[k], stream[..counts[k]])
  }

  lemma SeenFirst(c: Config, chunks: seq<seq<u8>>, stream: seq<u8>, counts: seq<nat>, from: nat)
    requires c.Valid() && Seen(c, chunks, stream, counts, from) && counts != []
    ensures |chunks[0]| == c.chunkSize && LoggedCount(c, chunks[0]) == counts[0] && from <= counts[0]
    ensures Seen(c, chunks[1..], stream, counts[1..], counts[0])
  {
    RisingBound(counts, from, |stream|);
    ShowsCount(c, chunks[0], stream[..counts[0]]);
    forall k | 0 <= k < |counts| - 1
      ensures counts[1..][k] <= |stream| && Shows(c, chunks[1..][k], stream[..counts[1..][k]])
    {
      assert Shows(c, chunks[k + 1], stream[..counts[k + 1]]);
    }
  }

  ghost function RunPolls(c: Config, s: ChunkState, chunks: seq<seq<u8>>, stream: seq<u8>, counts: seq<nat>): ChunkState
    requires c.Valid() && Seen(c, chunks, stream, counts, s.dumped)
    decreases |chunks|
  {
    if chunks == [] then s
    else
      SeenFirst(c, chunks, stream, counts, s.dumped);
      PollAdvances(c, s, chunks[0], stream[..counts[0]]);
      RunPolls(c, Poll(c, s, chunks[0]).state, chunks[1..], stream, counts[1..])
  }

  /** The part of a dump file behind the metadata. */
  function Body(c: Config, file: seq<u8>): seq<u8> {
    if |file| >= c.metadataSize then file[c.metadataSize..] else []
  }

  /** One poll: new metadata in front, the window appended, and everything logged accounted for. */
  lemma PollAdvances(c: Config, s: ChunkState, chunk: seq<u8>, stream: seq<u8>)
    requires c.Valid() && Shows(c, chunk, stream) && s.dumped <= |stream|
    ensures Poll(c, s, chunk).Polled?
    ensures var s' := Poll(c, s, chunk).state;
            && s'.dumped == |stream|
            && (s.dumped == |stream| ==> s' == s)
            && (s.dumped < |stream| ==>
                  s'.file == chunk[..c.metadataSize] + Body(c, s.file)
                             + stream[StartOf(s.dumped, |stream|, c.DataSize())..])
  {
    var start := StartOf(s.dumped, |stream|, c.DataSize());
    ShowsCount(c, chunk, stream);
    ToDumpUp(start, |stream|);
    ReadRingIsStream(c, chunk, stream, start);
    assert Overwrite(s.file, chunk[..c.metadataSize]) == chunk[..c.metadataSize] + Body(c, s.file);
  }

  /** The metadata of the last poll that found something new. */
  ghost function LastMetadata(c: Config, chunks: seq<seq<u8>>, counts: seq<nat>, from: nat, head: seq<u8>): seq<u8>
    requires |chunks| == |counts| && forall k :: 0 <= k < |chunks| ==> |chunks[k]| >= c.metadataSize
    decreases |chunks|
  {
    if chunks == [] then head
    else LastMetadata(c, chunks[1..], counts[1..], counts[0],
                      if counts[0] != from then chunks[0][..c.metadataSize] else head)
  }

  /** A dump file starts with `head`; before anything is dumped there is neither. */
  ghost predicate StartsWith(c: Config, file: seq<u8>, head: seq<u8>) {
    file == head + Body(c, file) && (|head| == c.metadataSize || file == [])
  }

  lemma FileParts(c: Config, head: seq<u8>, body: seq<u8>, more: seq<u8>)
    requires |head| == c.metadataSize
    ensures Body(c, head + body + more) == body + more && StartsWith(c, head + body + more, head)
  {
    AppendAssociates(head, body, more);
  }

  lemma PollFile(c: Config, s: ChunkState, chunk: seq<u8>, stream: seq<u8>, head: seq<u8>)
    requires c.Valid() && Shows(c, chunk, stream) && s.dumped <= |stream| && StartsWith(c, s.file, head)
    ensures Poll(c, s, chunk).Polled?
    ensures var s' := Poll(c, s, chunk).state;
            && Body(c, s'.file) == Body(c, s.file) + stream[StartOf(s.dumped, |stream|, c.DataSize())..]
            && StartsWith(c, s'.file, if s.dumped != |stream| then chunk[..c.metadataSize] else head)
  {
    PollAdvances(c, s, chunk, stream);
    var s' := Poll(c, s, chunk).state;
    if s.dumped < |stream| {
      FileParts(c, chunk[..c.metadataSize], Body(c, s.file), stream[StartOf(s.dumped, |stream|, c.DataSize())..]);
    } else {
      assert stream[|stream|..] == [];
    }
  }

  /**
   * Over every run of polls a dump file is the metadata of the last poll that found something new,
   * followed by the windows of the logged stream, one after another.
   */
  lemma {:induction false} RunFile(c: Config, s: ChunkState, chunks: seq<seq<u8>>, stream: seq<u8>, counts: seq<nat>,
                                   head: seq<u8>)
    requires c.Valid() && Seen(c, chunks, stream, counts, s.dumped) && StartsWith(c, s.file, head)
    ensures forall k :: 0 <= k < |chunks| ==> |chunks[k]| >= c.metadataSize
    ensures var file := RunPolls(c, s, chunks, stream, counts).file;
            && StartsWith(c, file, LastMetadata(c, chunks, counts, s.dumped, head))
            && Body(c, file) == Body(c, s.file) + Windows(stream, counts, s.dumped, c.DataSize())
    decreases |chunks|
  {
    forall k | 0 <= k < |chunks| ensures |chunks[k]| >= c.metadataSize {
      assert Shows(c, chunks[k], stream[..counts[k]]);
    }
    if chunks != [] {
      SeenFirst(c, chunks, stream, counts, s.dumped);
      var now := stream[..counts[0]];
      PollFile(c, s, chunks[0], now, head);
      PollAdvances(c, s, chunks[0], now);
      var start := StartOf(s.dumped, counts[0], c.DataSize());
      assert now[start..] == stream[start..counts[0]];
      RunFile(c, Poll(c, s, chunks[0]).state, chunks[1..], stream, counts[1..],
              if counts[0] != s.dumped then chunks[0][..c.metadataSize] else head);
      AppendAssociates(Body(c, s.file), now[start..], Windows(stream, counts[1..], counts[0], c.DataSize()));
    }
  }

  /** Byte `k` of the stream lies in the window of some poll. */
  ghost predicate Dumped(counts: seq<nat>, from: nat, d: nat, k: nat)
    requires d > 0
    decreases |counts|
  {
    counts != [] && (StartOf(from, counts[0], d) <= k < counts[0] || Dumped(counts[1..], counts[0], d, k))
  }

  /** At the first poll that could see byte `k`, the device had not yet overwritten it. */
  ghost predicate Survives(counts: seq<nat>, d: nat, k: nat)
    decreases |counts|
  {
    counts != [] && (if k < counts[0] then counts[0] - d <= k else Survives(counts[1..], d, k))
  }

  lemma {:induction false} GoneForGood(counts: seq<nat>, from: nat, to: nat, d: nat, k: nat)
    requires d > 0 && Rising(counts, from, to) && k < from - d
    ensures !Dumped(counts, from, d, k)
    decreases |counts|
  {
    if counts != [] {
      WindowExact(from, counts[0], d, k);
      GoneForGood(counts[1..], counts[0], to, d, k);
    }
  }

  /** Over every run, a byte reaches the file exactly if it survived until the first poll that could see it. */
  lemma {:induction false} SurvivorsAreDumped(counts: seq<nat>, from: nat, to: nat, d: nat, k: nat)
    requires d > 0 && Rising(counts, from, to) && from <= k
    ensures Dumped(counts, from, d, k) <==> Survives(counts, d, k)
    decreases |counts|
  {
    if counts != [] {
      WindowExact(from, counts[0], d, k);
      if counts[0] <= k {
        SurvivorsAreDumped(counts[1..], counts[0], to, d, k);
      } else if k < counts[0] - d {
        GoneForGood(counts[1..], counts[0], to, d, k);
      }
    }
  }

  // ---- how often a byte is dumped ----

  /** In how many windows of a run byte `k` lies. */
  ghost function Appearances(counts: seq<nat>, from: nat, d: nat, k: nat): nat
    requires d > 0
    decreases |counts|
  {
    if counts == [] then 0
    else (if StartOf(from, counts[0], d) <= k < counts[0] then 1 else 0) + Appearances(counts[1..], counts[0], d, k)
  }

  /** The next poll that crosses a lap boundary still finds byte `k` in the ring. */
  ghost predicate Revisited(counts: seq<nat>, from: nat, d: nat, k: nat)
    requires d > 0
    decreases |counts|
  {
    counts != [] &&
    if counts[0] / d > from / d then counts[0] - d <= k else Revisited(counts[1..], counts[0], d, k)
  }

  /** The byte is dumped when first seen, and a lap boundary is crossed later while it is still in the ring. */
  ghost predicate DumpedTwice(counts: seq<nat>, d: nat, k: nat)
    requires d > 0
    decreases |counts|
  {
    counts != [] &&
    if k < counts[0] then counts[0] - d <= k && Revisited(counts[1..], counts[0], d, k)
    else DumpedTwice(counts[1..], d, k)
  }

  /** Behind the lap boundary that follows it, a byte is gone when the next one is crossed. */
  lemma NextLapIsBeyond(k: nat, from: nat, count: nat, d: nat)
    requires d > 0 && k / d < from / d < count / d
    ensures k < count - d
  {
    DivMod(k, d);
    DivMod(count, d);
    MulMonotone(d, k / d + 2, count / d);
    assert d * (k / d + 2) == (k / d) * d + 2 * d && d * (count / d) == (count / d) * d;
  }

  lemma {:induction false} NeverAgain(counts: seq<nat>, from: nat, to: nat, d: nat, k: nat)
    requires d > 0 && Rising(counts, from, to) && k < from && (k / d < from / d || k < from - d)
    ensures Appearances(counts, from, d, k) == 0
    decreases |counts|
  {
    if counts != [] {
      WindowExact(from, counts[0], d, k);
      if k / d < from / d && from / d < counts[0] / d {
        NextLapIsBeyond(k, from, counts[0], d);
      }
      DivMonotone(from, counts[0], d);
      NeverAgain(counts[1..], counts[0], to, d, k);
    }
  }

  lemma DivMonotone(a: nat, b: nat, d: nat)
    requires d > 0 && a <= b
    ensures a / d <= b / d
  {
    DivMod(a, d);
    DivMod(b, d);
    var q, r := a / d, b / d;
    if q > r {
      assert (q - r) * d == q * d - r * d;
      MulAtLeast(q - r, d);
    }
  }

  lemma {:induction false} SeenBefore(counts: seq<nat>, from: nat, to: nat, d: nat, k: nat)
    requires d > 0 && Rising(counts, from, to) && k < from
    ensures Appearances(counts, from, d, k) == if Revisited(counts, from, d, k) then 1 else 0
    decreases |counts|
  {
    if counts != [] {
      WindowExact(from, counts[0], d, k);
      DivMonotone(k, from, d);
      if counts[0] / d > from / d {
        NeverAgain(counts[1..], counts[0], to, d, k);
      } else {
        SeenBefore(counts[1..], counts[0], to, d, k);
      }
    }
  }

  /**
   * Over every run each byte reaches the file at most twice: not at all if it was overwritten before the
   * first poll that could see it, twice if a later poll crosses the next lap boundary with the byte still
   * in the ring, and once otherwise.
   */
  lemma {:induction false} AppearancesExact(counts: seq<nat>, from: nat, to: nat, d: nat, k: nat)
    requires d > 0 && Rising(counts, from, to) && from <= k
    ensures Appearances(counts, from, d, k)
         == if !Survives(counts, d, k) then 0 else if DumpedTwice(counts, d, k) then 2 else 1
    decreases |counts|
  {
    if counts != [] {
      WindowExact(from, counts[0], d, k);
      if counts[0] <= k {
        AppearancesExact(counts[1..], counts[0], to, d, k);
      } else if counts[0] - d <= k {
        SeenBefore(counts[1..], counts[0], to, d, k);
      } else {
        NeverAgain(counts[1..], counts[0], to, d, k);
      }
    }
  }

  // ---- parsed text format ----

  /** The chunk offset of the entry `parsed` bytes into a window starting at stream position `start`. */
  function EntryOffset(c: Config, start: nat, parsed: nat): nat
    requires c.Valid()
  {
    var startOffset := RingOffset(c, start);
    var bytesToEnd := c.chunkSize - startOffset;
    if parsed < bytesToEnd then startOffset + parsed else c.metadataSize + (parsed - bytesToEnd)
  }

  /** The walk of the entry parser, which advances by the metadata size. */
  method EntryOffsets(c: Config, start: nat, length: nat) returns (offsets: seq<nat>)
    requires c.Valid() && c.metadataSize > 0
    ensures (|offsets| - 1) * c.metadataSize < length <= |offsets| * c.metadataSize || (length == 0 && offsets == [])
    ensures c.metadataSize == 32 && length % 32 == 0 ==> |offsets| == length / 32
    ensures forall j :: 0 <= j < |offsets| ==> offsets[j] == EntryOffset(c, start, j * c.metadataSize)
  {
    var startOffset := RingOffset(c, start);
    var bytesToEnd := c.chunkSize - startOffset;
    offsets := [];
    var parsed := 0;
    while parsed < length
      invariant parsed == |offsets| * c.metadataSize
      invariant offsets != [] ==> parsed - c.metadataSize < length
      invariant forall j :: 0 <= j < |offsets| ==> offsets[j] == EntryOffset(c, start, j * c.metadataSize)
      decreases length - parsed
    {
      var offset := if parsed < bytesToEnd then startOffset + parsed else c.metadataSize + (parsed - bytesToEnd);
      offsets := offsets + [offset];
      assert |offsets| * c.metadataSize == (|offsets| - 1) * c.metadataSize + c.metadataSize;
      parsed := parsed + c.metadataSize;
    }
    assert (|offsets| - 1) * c.metadataSize == |offsets| * c.metadataSize - c.metadataSize;
  }

  /** The layout text format relies on: metadata the size of an entry, data a whole number of entries. */
  ghost predicate TextLayout(c: Config) {
    c.Valid() && c.metadataSize == 32 && c.DataSize() % 32 == 0
  }

  lemma AlignedMod(x: nat, d: nat)
    requires d > 0 && x % 32 == 0 && d % 32 == 0
    ensures (x % d) % 32 == 0
  {
    DivMod(x, d);
    var e := d / 32;
    assert d == 32 * e;
    assert (x / d) * d == 32 * ((x / d) * e);
    assert x % d == 32 * (x / 32 - (x / d) * e);
  }

  lemma StartCases(dumped: nat, logged: nat, d: nat)
    requires d > 0 && dumped <= logged
    ensures var start := StartOf(dumped, logged, d);
            logged - d <= start <= logged && (start == dumped || start == logged - d)
  {
  }

  lemma AlignedDifference(a: nat, b: nat)
    requires a % 32 == 0 && b % 32 == 0 && b <= a
    ensures (a - b) % 32 == 0 && 32 * ((a - b) / 32) == a - b
  {
  }

  /** With whole entries logged, every poll starts at an entry, repositioned or not. */
  lemma StartsAtEntry(c: Config, dumped: nat, logged: nat)
    requires TextLayout(c) && dumped % 32 == 0 && logged % 32 == 0 && dumped <= logged
    ensures StartOf(dumped, logged, c.DataSize()) % 32 == 0
  {
    StartCases(dumped, logged, c.DataSize());
    if StartOf(dumped, logged, c.DataSize()) != dumped {
      AlignedDifference(logged, c.DataSize());
    }
  }

  lemma RoomForEntry(start: nat, j: nat, end: nat)
    requires start % 32 == 0 && end % 32 == 0 && start + 32 * j < end
    ensures (32 * j) % 32 == 0 && start + 32 * j + 32 <= end
  {
  }

  /** An aligned entry that begins before the wrap ends before it. */
  lemma NoStraddle(r: nat, parsed: nat, d: nat)
    requires r % 32 == 0 && parsed % 32 == 0 && d % 32 == 0 && r < d && parsed + 32 <= d
    ensures if parsed < d - r then parsed + 32 <= d - r else r + parsed + 32 <= d + r
  {
  }

  /** The chunk position of the byte `t` bytes into an entry is that of the stream byte, modulo the ring. */
  lemma EntryByte(c: Config, start: nat, parsed: nat, t: nat)
    requires TextLayout(c) && start % 32 == 0 && parsed % 32 == 0
    requires parsed + 32 <= c.DataSize() && t < 32
    ensures var offset := EntryOffset(c, start, parsed);
            && c.metadataSize <= offset && offset + 32 <= c.chunkSize
            && offset + t == c.metadataSize + (start + parsed + t) % c.DataSize()
  {
    AlignedMod(start, c.DataSize());
    NoStraddle(start % c.DataSize(), parsed, c.DataSize());
    ModAdd(start, parsed + t, c.DataSize());
  }

  lemma EntryAt(c: Config, chunk: seq<u8>, stream: seq<u8>, start: nat, parsed: nat)
    requires TextLayout(c) && |chunk| == c.chunkSize && HoldsLast(c, chunk, stream)
    requires |stream| - c.DataSize() <= start
    requires start % 32 == 0 && parsed % 32 == 0 && start + parsed + 32 <= |stream|
    ensures var offset := EntryOffset(c, start, parsed);
            && c.metadataSize <= offset && offset + 32 <= c.chunkSize
            && chunk[offset..offset + 32] == stream[start + parsed..start + parsed + 32]
  {
    EntryByte(c, start, parsed, 0);
    var first, offset := start + parsed, EntryOffset(c, start, parsed);
    var read, logged := chunk[offset..offset + 32], stream[first..first + 32];
    forall t | 0 <= t < 32 ensures read[t] == logged[t] {
      EntryByte(c, start, parsed, t);
      assert chunk[c.metadataSize + (first + t) % c.DataSize()] == stream[first + t];
    }
  }

  // ---- whole runs in text format ----

  type Entry = e: seq<u8> | |e| == 32 witness seq(32, _ => 0)

  lemma EntryStart(j: nat)
    ensures (32 * j) % 32 == 0
  {
  }

  lemma EntryInside(c: Config, start: nat, j: nat)
    requires TextLayout(c) && start % 32 == 0 && 32 * j + 32 <= c.DataSize()
    ensures var offset := EntryOffset(c, start, 32 * j); c.metadataSize <= offset && offset + 32 <= c.chunkSize
  {
    EntryStart(j);
    EntryByte(c, start, 32 * j, 0);
  }

  /** Entries `j` and following of a window, each copied from its chunk offset. */
  function EntriesFrom(c: Config, chunk: seq<u8>, start: nat, j: nat, n: nat): (es: seq<Entry>)
    requires TextLayout(c) && |chunk| == c.chunkSize && start % 32 == 0 && 32 * (j + n) <= c.DataSize()
    ensures |es| == n
    decreases n
  {
    if n == 0 then []
    else
      EntryInside(c, start, j);
      var offset := EntryOffset(c, start, 32 * j);
      [chunk[offset..offset + 32]] + EntriesFrom(c, chunk, start, j + 1, n - 1)
  }

  function Flat(es: seq<Entry>): seq<u8> {
    if es == [] then [] else es[0] + Flat(es[1..])
  }

  lemma {:induction false} FlatAppend(a: seq<Entry>, b: seq<Entry>)
    ensures Flat(a + b) == Flat(a) + Flat(b)
    decreases |a|
  {
    if a == [] {
      assert a + b == b;
    } else {
      assert (a + b)[1..] == a[1..] + b;
      FlatAppend(a[1..], b);
      AppendAssociates(a[0], Flat(a[1..]), Flat(b));
    }
  }

  lemma EntryOfStream(c: Config, chunk: seq<u8>, stream: seq<u8>, start: nat, j: nat)
    requires TextLayout(c) && |chunk| == c.chunkSize && HoldsLast(c, chunk, stream)
    requires |stream| - c.DataSize() <= start
    requires start % 32 == 0 && start + 32 * j + 32 <= |stream|
    ensures var offset := EntryOffset(c, start, 32 * j);
            && c.metadataSize <= offset && offset + 32 <= c.chunkSize
            && chunk[offset..offset + 32] == stream[start + 32 * j..start + 32 * j + 32]
  {
    EntryStart(j);
    EntryAt(c, chunk, stream, start, 32 * j);
  }

  lemma EntryRoom(c: Config, dumped: nat, logged: nat, start: nat, j: nat)
    requires TextLayout(c) && dumped <= logged && dumped % 32 == 0 && logged % 32 == 0
    requires start == StartOf(dumped, logged, c.DataSize()) && start + 32 * j < logged
    ensures start % 32 == 0 && logged - c.DataSize() <= start && start + 32 * j + 32 <= logged
  {
    StartsAtEntry(c, dumped, logged);
    RoomForEntry(start, j, logged);
  }

  /**
   * In that layout entry `j` of a window is read whole from inside the chunk, never across the wrap,
   * and is the j-th entry of the stream from where the poll starts.
   */
  lemma EntryIsStream(c: Config, chunk: seq<u8>, stream: seq<u8>, dumped: nat, start: nat, j: nat)
    requires TextLayout(c) && Shows(c, chunk, stream) && dumped <= |stream|
    requires dumped % 32 == 0 && |stream| % 32 == 0
    requires start == StartOf(dumped, |stream|, c.DataSize()) && start + 32 * j < |stream|
    ensures var offset := EntryOffset(c, start, 32 * j);
            && start + 32 * j + 32 <= |stream|
            && c.metadataSize <= offset && offset + 32 <= c.chunkSize
            && chunk[offset..offset + 32] == stream[start + 32 * j..start + 32 * j + 32]
  {
    EntryRoom(c, dumped, |stream|, start, j);
    EntryOfStream(c, chunk, stream, start, j);
  }

  lemma SplitEntry(stream: seq<u8>, first: nat)
    requires first + 32 <= |stream|
    ensures stream[first..first + 32] + stream[first + 32..] == stream[first..]
  {
  }

  /** The entries of a window are the stream from where the poll starts, in order. */
  lemma {:induction false} EntriesAreStream(c: Config, chunk: seq<u8>, stream: seq<u8>, start: nat, j: nat, n: nat)
    requires TextLayout(c) && |chunk| == c.chunkSize && HoldsLast(c, chunk, stream)
    requires |stream| - c.DataSize() <= start
    requires start % 32 == 0 && start + 32 * (j + n) == |stream|
    ensures Flat(EntriesFrom(c, chunk, start, j, n)) == stream[start + 32 * j..]
    decreases n
  {
    if n > 0 {
      EntryOfStream(c, chunk, stream, start, j);
      EntriesAreStream(c, chunk, stream, start, j + 1, n - 1);
      var es, rest := EntriesFrom(c, chunk, start, j, n), EntriesFrom(c, chunk, start, j + 1, n - 1);
      assert es[1..] == rest;
      SplitEntry(stream, start + 32 * j);
    }
  }

  datatype TextState = TextState(dumped: u64, entries: seq<Entry>)

  lemma WindowOfEntries(c: Config, dumped: u64, logged: u64)
    requires TextLayout(c) && dumped <= logged && dumped % 32 == 0 && logged % 32 == 0
    ensures var start := StartOf(dumped, logged, c.DataSize());
            start <= logged && start % 32 == 0 && 32 * ((logged - start) / 32) == logged - start <= c.DataSize()
  {
    StartsAtEntry(c, dumped, logged);
    StartCases(dumped, logged, c.DataSize());
    AlignedDifference(logged, StartOf(dumped, logged, c.DataSize()));
  }

  /** One poll in text format: the entries of its window are parsed and passed on. */
  function PollText(c: Config, s: TextState, chunk: seq<u8>): TextState
    requires TextLayout(c) && |chunk| == c.chunkSize
    requires s.dumped <= LoggedCount(c, chunk) && s.dumped % 32 == 0 && LoggedCount(c, chunk) % 32 == 0
  {
    var logged := LoggedCount(c, chunk);
    var start := StartOf(s.dumped, logged, c.DataSize());
    WindowOfEntries(c, s.dumped, logged);
    if start == logged then s
    else TextState(logged, s.entries + EntriesFrom(c, chunk, start, 0, (logged - start) / 32))
  }

  lemma PollTextAdvances(c: Config, s: TextState, chunk: seq<u8>, stream: seq<u8>)
    requires TextLayout(c) && Shows(c, chunk, stream) && s.dumped <= |stream|
    requires s.dumped % 32 == 0 && |stream| % 32 == 0
    ensures LoggedCount(c, chunk) == |stream|
    ensures var s' := PollText(c, s, chunk);
            && s'.dumped == |stream|
            && Flat(s'.entries) == Flat(s.entries) + stream[StartOf(s.dumped, |stream|, c.DataSize())..]
  {
    var start := StartOf(s.dumped, |stream|, c.DataSize());
    ShowsCount(c, chunk, stream);
    WindowOfEntries(c, s.dumped, |stream|);
    var n := (|stream| - start) / 32;
    EntriesAreStream(c, chunk, stream, start, 0, n);
    FlatAppend(s.entries, EntriesFrom(c, chunk, start, 0, n));
  }

  /** Only whole entries are ever logged. */
  ghost predicate WholeEntries(counts: seq<nat>) {
    forall k :: 0 <= k < |counts| ==> counts[k] % 32 == 0
  }

  ghost function RunText(c: Config, s: TextState, chunks: seq<seq<u8>>, stream: seq<u8>, counts: seq<nat>): TextState
    requires TextLayout(c) && Seen(c, chunks, stream, counts, s.dumped) && s.dumped % 32 == 0 && WholeEntries(counts)
    decreases |chunks|
  {
    if chunks == [] then s
    else
      SeenFirst(c, chunks, stream, counts, s.dumped);
      PollTextAdvances(c, s, chunks[0], stream[..counts[0]]);
      RunText(c, PollText(c, s, chunks[0]), chunks[1..], stream, counts[1..])
  }

  /** Over every run the entries parsed, one after another, are the windows of the logged stream. */
  lemma {:induction false} RunTextEntries(c: Config, s: TextState, chunks: seq<seq<u8>>, stream: seq<u8>,
                                          counts: seq<nat>)
    requires TextLayout(c) && Seen(c, chunks, stream, counts, s.dumped) && s.dumped % 32 == 0 && WholeEntries(counts)
    ensures Flat(RunText(c, s, chunks, stream, counts).entries)
         == Flat(s.entries) + Windows(stream, counts, s.dumped, c.DataSize())
    decreases |chunks|
  {
    if chunks != [] {
      SeenFirst(c, chunks, stream, counts, s.dumped);
      var now := stream[..counts[0]];
      PollTextAdvances(c, s, chunks[0], now);
      var start := StartOf(s.dumped, counts[0], c.DataSize());
      assert now[start..] == stream[start..counts[0]];
      RunTextEntries(c, PollText(c, s, chunks[0]), chunks[1..], stream, counts[1..]);
      AppendAssociates(Flat(s.entries), now[start..], Windows(stream, counts[1..], counts[0], c.DataSize()));
    }
  }

  /** Copying one more entry moves it from what is to come to what is `done`. */
  lemma EntriesStep(c: Config, chunk: seq<u8>, start: nat, done: seq<Entry>, n: nat)
    requires TextLayout(c) && |chunk| == c.chunkSize && start % 32 == 0 && |done| < n && 32 * n <= c.DataSize()
    ensures var j := |done|; var offset := EntryOffset(c, start, 32 * j);
            && c.metadataSize <= offset && offset + 32 <= c.chunkSize
            && done + EntriesFrom(c, chunk, start, j, n - j)
               == (done + [chunk[offset..offset + 32]]) + EntriesFrom(c, chunk, start, j + 1, n - j - 1)
  {
    var j := |done|;
    EntryInside(c, start, j);
    var offset := EntryOffset(c, start, 32 * j);
    AppendAssociates(done, [chunk[offset..offset + 32]], EntriesFrom(c, chunk, start, j + 1, n - j - 1));
  }

  /** The loop of the entry parser, which copies one entry at each offset. */
  method ParseEntries(c: Config, chunk: seq<u8>, start: nat, n: nat) returns (entries: seq<Entry>)
    requires TextLayout(c) && |chunk| == c.chunkSize && start % 32 == 0 && 32 * n <= c.DataSize()
    ensures entries == EntriesFrom(c, chunk, start, 0, n)
  {
    var length := 32 * n;
    var startOffset := RingOffset(c, start);
    var bytesToEnd := c.chunkSize - startOffset;
    entries := [];
    var parsed := 0;
    while parsed < length
      invariant |entries| <= n && parsed == 32 * |entries|
      invariant entries + EntriesFrom(c, chunk, start, |entries|, n - |entries|) == EntriesFrom(c, chunk, start, 0, n)
      decreases length - parsed
    {
      EntriesStep(c, chunk, start, entries, n);
      var offset := if parsed < bytesToEnd then startOffset + parsed else c.metadataSize + (parsed - bytesToEnd);
      entries := entries + [chunk[offset..offset + 32]];
      parsed := parsed + c.metadataSize;
    }
  }

  // ---- the dumper object ----

  function ChunkOf(c: Config, buffer: seq<u8>, i: nat): (chunk: seq<u8>)
    requires i < c.numChunks && |buffer| == c.numChunks * c.chunkSize
    ensures |chunk| == c.chunkSize
  {
    ChunkBounds(c, i);
    buffer[i * c.chunkSize..i * c.chunkSize + c.chunkSize]
  }

  lemma ChunkBounds(c: Config, i: nat)
    requires i < c.numChunks
    ensures 0 <= i * c.chunkSize && i * c.chunkSize + c.chunkSize <= c.numChunks * c.chunkSize
  {
    MulMonotone(c.chunkSize, i + 1, c.numChunks);
    assert c.chunkSize * (i + 1) == i * c.chunkSize + c.chunkSize;
    assert c.chunkSize * c.numChunks == c.numChunks * c.chunkSize;
  }

  /** The first `n` chunks of a buffer, one after another. */
  ghost function FirstChunks(c: Config, buffer: seq<u8>, n: nat): seq<u8>
    requires n <= c.numChunks && |buffer| == c.numChunks * c.chunkSize
  {
    if n == 0 then [] else FirstChunks(c, buffer, n - 1) + ChunkOf(c, buffer, n - 1)
  }

  lemma {:induction false} FirstChunksAre(c: Config, buffer: seq<u8>, n: nat)
    requires n <= c.numChunks && |buffer| == c.numChunks * c.chunkSize
    ensures 0 <= n * c.chunkSize <= |buffer| && FirstChunks(c, buffer, n) == buffer[..n * c.chunkSize]
    decreases n
  {
    if n > 0 {
      FirstChunksAre(c, buffer, n - 1);
      ChunkBounds(c, n - 1);
      assert (n - 1) * c.chunkSize + c.chunkSize == n * c.chunkSize;
    } else {
      MulMonotone(c.chunkSize, 0, c.numChunks);
    }
  }

  /** The chunks are the device buffer, cut into pieces of the chunk size. */
  lemma ChunksAreBuffer(c: Config, buffer: seq<u8>)
    requires |buffer| == c.numChunks * c.chunkSize
    ensures FirstChunks(c, buffer, c.numChunks) == buffer
  {
    FirstChunksAre(c, buffer, c.numChunks);
  }

  lemma CountInMetadata(c: Config, chunk: seq<u8>)
    requires c.Valid() && |chunk| == c.chunkSize
    ensures Count(chunk[0..c.metadataSize][c.countOffset..c.countOffset + c.countSize]) == LoggedCount(c, chunk)
  {
    SliceOfSlice(chunk, 0, c.metadataSize, c.countOffset, c.countSize);
  }

  /** Binary format: one count and one file per chunk, and a host copy of the device buffer. */
  class Dumper {
    const c: Config
    const counts: array<u64>
    const files: array<seq<u8>>
    const host: array<u8>

    ghost predicate Valid()
      reads this
    {
      && c.Valid()
      && counts.Length == files.Length == c.numChunks
      && host.Length == c.numChunks * c.chunkSize
    }

    constructor (c: Config)
      requires c.Valid()
      ensures Valid() && this.c == c && fresh(counts) && fresh(files) && fresh(host)
      ensures forall i :: 0 <= i < c.numChunks ==> counts[i] == 0 && files[i] == []
    {
      this.c := c;
      counts := new u64[c.numChunks](_ => 0);
      files := new seq<u8>[c.numChunks](_ => []);
      host := new u8[c.numChunks * c.chunkSize](_ => 0);
    }

    ghost function At(i: nat): ChunkState
      requires i < counts.Length && i < files.Length
      reads this, counts, files
    {
      ChunkState(counts[i], files[i])
    }

    /** Bring part of the device buffer into the host copy. */
    method Sync(dev: seq<u8>, length: nat, offset: nat)
      requires Valid() && |dev| == host.Length && offset + length <= host.Length
      modifies host
      ensures host[offset..offset + length] == dev[offset..offset + length]
      ensures forall k :: 0 <= k < host.Length && !(offset <= k < offset + length) ==> host[k] == old(host[k])
    {
      forall k | offset <= k < offset + length {
        host[k] := dev[k];
      }
    }

    /** Synchronise and read `length` bytes at position `p` of the buffer. */
    method ReadAt(dev: seq<u8>, p: nat, length: nat) returns (bytes: seq<u8>)
      requires Valid() && |dev| == host.Length && p + length <= host.Length
      modifies host
      ensures bytes == dev[p..p + length]
    {
      Sync(dev, length, p);
      bytes := host[p..p + length];
    }

    /** Synchronise and read `length` bytes at offset `from` of chunk `i`. */
    method ReadSynced(dev: seq<u8>, i: nat, from: nat, length: nat) returns (bytes: seq<u8>)
      requires Valid() && |dev| == host.Length && i < c.numChunks && from + length <= c.chunkSize
      modifies host
      ensures bytes == ChunkOf(c, dev, i)[from..from + length]
    {
      ChunkBounds(c, i);
      var base := i * c.chunkSize;
      SliceOfSlice(dev, base, c.chunkSize, from, length);
      bytes := ReadAt(dev, base + from, length);
    }

    /** The one or two ranges that hold `length` bytes from stream position `start`. */
    method ReadRanges(dev: seq<u8>, i: nat, start: nat, length: nat) returns (payload: seq<u8>)
      requires Valid() && |dev| == host.Length && i < c.numChunks && length <= c.DataSize()
      modifies host
      ensures payload == ReadRing(c, ChunkOf(c, dev, i), start, length)
    {
      var startOffset := RingOffset(c, start);
      var bytesToEnd := c.chunkSize - startOffset;
      if length <= bytesToEnd {
        payload := ReadSynced(dev, i, startOffset, length);
      } else {
        payload := ReadSynced(dev, i, startOffset, bytesToEnd);
        var rest := ReadSynced(dev, i, c.metadataSize, length - bytesToEnd);
        payload := payload + rest;
      }
    }

    /** Synchronise the metadata alone, and read the count in it. */
    method ReadCount(dev: seq<u8>, i: nat) returns (metadata: seq<u8>, logged: u64)
      requires Valid() && |dev| == host.Length && i < c.numChunks
      modifies host
      ensures metadata == ChunkOf(c, dev, i)[..c.metadataSize] && logged == LoggedCount(c, ChunkOf(c, dev, i))
    {
      metadata := ReadSynced(dev, i, 0, c.metadataSize);
      CountInMetadata(c, ChunkOf(c, dev, i));
      CountFits(metadata[c.countOffset..c.countOffset + c.countSize]);
      logged := Count(metadata[c.countOffset..c.countOffset + c.countSize]);
    }

    /** Rewrite the metadata in place, append the payload, and remember the count. */
    method Record(i: nat, metadata: seq<u8>, payload: seq<u8>, logged: u64)
      requires Valid() && i < c.numChunks
      modifies counts, files
      ensures At(i) == ChunkState(logged, Overwrite(old(files[i]), metadata) + payload)
      ensures forall j :: 0 <= j < c.numChunks && j != i ==> At(j) == old(At(j))
    {
      files[i] := Overwrite(files[i], metadata) + payload;
      counts[i] := logged;
    }

    /** Only what a poll needs is synchronised: the metadata, then the ranges to dump, if they fit the ring. */
    method ProcessChunk(dev: seq<u8>, i: nat) returns (ok: bool)
      requires Valid() && |dev| == host.Length && i < c.numChunks
      modifies counts, files, host
      ensures match Poll(c, old(At(i)), ChunkOf(c, dev, i))
              case Polled(s) => ok && At(i) == s
              case OutOfRange => !ok && At(i) == old(At(i))
      ensures forall j :: 0 <= j < c.numChunks && j != i ==> At(j) == old(At(j))
    {
      var metadata, logged := ReadCount(dev, i);
      var start := StartOf(counts[i], logged, c.DataSize());
      if start != logged {
        var toDump := ToDump(start, logged);
        if toDump > c.DataSize() {
          return false;
        }
        var payload := ReadRanges(dev, i, start, toDump);
        Record(i, metadata, payload, logged);
      }
      ok := true;
    }

    /** `done` is the chunk whose count would lead out of the ring, or the number of chunks. */
    method ProcessChunks(dev: seq<u8>) returns (done: nat)
      requires Valid() && |dev| == host.Length
      modifies counts, files, host
      ensures done <= c.numChunks
      ensures done < c.numChunks ==> Poll(c, old(At(done)), ChunkOf(c, dev, done)).OutOfRange?
      ensures forall i :: 0 <= i < done ==> Poll(c, old(At(i)), ChunkOf(c, dev, i)) == Polled(At(i))
      ensures forall i :: done <= i < c.numChunks ==> At(i) == old(At(i))
    {
      done := 0;
      while done < c.numChunks
        invariant 0 <= done <= c.numChunks
        invariant forall j :: 0 <= j < done ==> Poll(c, old(At(j)), ChunkOf(c, dev, j)) == Polled(At(j))
        invariant forall j :: done <= j < c.numChunks ==> At(j) == old(At(j))
      {
        var ok := ProcessChunk(dev, done);
        if !ok {
          return;
        }
        done := done + 1;
      }
    }
  }
}
