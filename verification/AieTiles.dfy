/**
 * AIE tile status: one buffer of columns, each core rows | mem rows | shim rows, walked by three
 * parsers; and the bitmap of active columns that drives both allocation and display.
 */
module AieTiles {
  import opened Bits
  import opened Results

  datatype TileShape = TileShape(rows: nat, dmaChannels: nat, locks: nat, events: nat)

  /** The geometry the driver reports. */
  datatype Info = Info(colSize: nat, cols: nat, core: TileShape, mem: TileShape, shim: TileShape)

  datatype TileType = Core | Shim | Mem

  /** dma holds two status words per channel. */
  datatype CoreTile = CoreTile(dma: seq<u32>, coreEvents: seq<u32>, memEvents: seq<u32>,
                               status: u32, pc: u32, sp: u32, lr: u32, locks: seq<u8>)

  datatype Tile = Tile(dma: seq<u32>, events: seq<u32>, locks: seq<u8>)

  datatype Column = Column(core: seq<CoreTile>, mem: seq<Tile>, shim: seq<Tile>)

  // ---- sizes ----

  function CoreSize(t: TileShape): nat {
    8 * t.dmaChannels + 4 * t.events * 2 + t.locks + 4 * 4
  }

  function TileSize(t: TileShape): nat {
    8 * t.dmaChannels + 4 * t.events + t.locks
  }

  function ColumnSize(i: Info): nat {
    CoreSize(i.core) * i.core.rows + TileSize(i.shim) * i.shim.rows + TileSize(i.mem) * i.mem.rows
  }

  // ---- words in bytes ----

  /** Byte `j` of a little-endian word. */
  function ByteOf(x: u32, j: nat): u8 {
    if j == 0 then x % 0x100 else ByteOf(x / 0x100, j - 1)
  }

  /** The little-endian word at `p`. */
  function ReadWord(b: seq<u8>, p: nat): u32
    requires p + 4 <= |b|
  {
    (b[p] as int) + 0x100 * (b[p + 1] as int) + 0x1_0000 * (b[p + 2] as int) + 0x100_0000 * (b[p + 3] as int)
  }

  function ReadWords(b: seq<u8>, p: nat, n: nat): (ws: seq<u32>)
    requires p + 4 * n <= |b|
    ensures |ws| == n
    decreases n
  {
    if n == 0 then [] else [ReadWord(b, p)] + ReadWords(b, p + 4, n - 1)
  }

  function WordBytes(x: u32): (b: seq<u8>)
    ensures |b| == 4
  {
    [ByteOf(x, 0), ByteOf(x, 1), ByteOf(x, 2), ByteOf(x, 3)]
  }

  function WordsBytes(ws: seq<u32>): (b: seq<u8>)
    ensures |b| == 4 * |ws|
  {
    if ws == [] then [] else WordBytes(ws[0]) + WordsBytes(ws[1..])
  }

  /** `part` stands in `b` at position `p`. */
  ghost predicate Holds(b: seq<u8>, p: nat, part: seq<u8>) {
    p + |part| <= |b| && b[p..p + |part|] == part
  }

  lemma HoldsParts(b: seq<u8>, p: nat, first: seq<u8>, rest: seq<u8>)
    requires Holds(b, p, first + rest)
    ensures Holds(b, p, first) && Holds(b, p + |first|, rest)
  {
    var both := b[p..p + |first| + |rest|];
    assert both[..|first|] == first && both[|first|..] == rest;
    assert both[..|first|] == b[p..p + |first|] && both[|first|..] == b[p + |first|..p + |first| + |rest|];
  }

  lemma FourBytes(x: u32)
    ensures ByteOf(x, 1) == (x / 0x100) % 0x100
    ensures ByteOf(x, 2) == ((x / 0x100) / 0x100) % 0x100
    ensures ByteOf(x, 3) == (((x / 0x100) / 0x100) / 0x100) % 0x100
  {
    var y := x / 0x100;
    var z := y / 0x100;
    assert ByteOf(x, 1) == ByteOf(y, 0);
    assert ByteOf(x, 2) == ByteOf(y, 1) == ByteOf(z, 0);
    assert ByteOf(x, 3) == ByteOf(y, 2) == ByteOf(z, 1) == ByteOf(z / 0x100, 0);
  }

  lemma BytesAddUp(x: u32)
    ensures var y := x / 0x100; var z := y / 0x100; var w := z / 0x100;
            x % 0x100 + 0x100 * (y % 0x100) + 0x1_0000 * (z % 0x100) + 0x100_0000 * (w % 0x100) == x
  {
    var y := x / 0x100;
    var z := y / 0x100;
    var w := z / 0x100;
    assert x == 0x100 * y + x % 0x100;
    assert y == 0x100 * z + y % 0x100;
    assert z == 0x100 * w + z % 0x100;
    assert w % 0x100 == w;
  }

  lemma WordRoundTrip(x: u32)
    ensures (ByteOf(x, 0) as int) + 0x100 * (ByteOf(x, 1) as int)
            + 0x1_0000 * (ByteOf(x, 2) as int) + 0x100_0000 * (ByteOf(x, 3) as int) == x
  {
    FourBytes(x);
    BytesAddUp(x);
  }

  lemma HeldByte(b: seq<u8>, p: nat, part: seq<u8>, k: nat)
    requires Holds(b, p, part) && k < |part|
    ensures b[p + k] == part[k]
  {
    assert b[p..p + |part|][k] == b[p + k];
  }

  lemma HeldWord(b: seq<u8>, p: nat, x: u32)
    requires Holds(b, p, WordBytes(x))
    ensures ReadWord(b, p) == x
  {
    HeldByte(b, p, WordBytes(x), 0);
    HeldByte(b, p, WordBytes(x), 1);
    HeldByte(b, p, WordBytes(x), 2);
    HeldByte(b, p, WordBytes(x), 3);
    WordRoundTrip(x);
  }

  lemma WordThenRest(b: seq<u8>, p: nat, x: u32, rest: seq<u8>)
    requires Holds(b, p, WordBytes(x) + rest)
    ensures p + 4 <= |b| && ReadWord(b, p) == x && Holds(b, p + 4, rest)
  {
    HoldsParts(b, p, WordBytes(x), rest);
    HeldWord(b, p, x);
  }

  lemma {:induction false} WordsRoundTrip(b: seq<u8>, p: nat, ws: seq<u32>)
    requires Holds(b, p, WordsBytes(ws))
    ensures p + 4 * |ws| <= |b| && ReadWords(b, p, |ws|) == ws
    decreases |ws|
  {
    if ws != [] {
      WordThenRest(b, p, ws[0], WordsBytes(ws[1..]));
      WordsRoundTrip(b, p + 4, ws[1..]);
    }
  }

  // ---- one tile ----

  ghost predicate FitsCore(t: TileShape, c: CoreTile) {
    |c.dma| == 2 * t.dmaChannels && |c.coreEvents| == |c.memEvents| == t.events && |c.locks| == t.locks
  }

  ghost predicate FitsTile(t: TileShape, x: Tile) {
    |x.dma| == 2 * t.dmaChannels && |x.events| == t.events && |x.locks| == t.locks
  }

  /** The driver's layout of a core tile: DMA, events, then registers and locks. */
  function CoreBytes(c: CoreTile): seq<u8> {
    WordsBytes(c.dma) + (WordsBytes(c.coreEvents) + (WordsBytes(c.memEvents) + CoreTail(c)))
  }

  function CoreTail(c: CoreTile): seq<u8> {
    WordBytes(c.status) + (WordBytes(c.pc) + (WordBytes(c.sp) + (WordBytes(c.lr) + c.locks)))
  }

  function TileBytes(x: Tile): seq<u8> {
    WordsBytes(x.dma) + (WordsBytes(x.events) + x.locks)
  }

  /** The core tile at position `p`, given how many DMA words, events and locks it has. */
  function CoreFrom(raw: seq<u8>, p: nat, words: nat, events: nat, locks: nat): CoreTile
    requires p + 4 * words + 8 * events + 16 + locks <= |raw|
  {
    var p1 := p + 4 * words;
    var p2 := p1 + 4 * events;
    var p3 := p2 + 4 * events;
    CoreTile(ReadWords(raw, p, words), ReadWords(raw, p1, events), ReadWords(raw, p2, events),
             ReadWord(raw, p3), ReadWord(raw, p3 + 4), ReadWord(raw, p3 + 8), ReadWord(raw, p3 + 12),
             raw[p3 + 16..p3 + 16 + locks])
  }

  function CoreAt(t: TileShape, raw: seq<u8>, p: nat): CoreTile
    requires p + CoreSize(t) <= |raw|
  {
    CoreFrom(raw, p, 2 * t.dmaChannels, t.events, t.locks)
  }

  /** The mem or shim tile at position `p`. */
  function TileFrom(raw: seq<u8>, p: nat, words: nat, events: nat, locks: nat): Tile
    requires p + 4 * words + 4 * events + locks <= |raw|
  {
    var p1 := p + 4 * words;
    var p2 := p1 + 4 * events;
    Tile(ReadWords(raw, p, words), ReadWords(raw, p1, events), raw[p2..p2 + locks])
  }

  function TileAt(t: TileShape, raw: seq<u8>, p: nat): Tile
    requires p + TileSize(t) <= |raw|
  {
    TileFrom(raw, p, 2 * t.dmaChannels, t.events, t.locks)
  }

  lemma CoreTailStands(c: CoreTile, raw: seq<u8>, p: nat)
    requires Holds(raw, p, CoreTail(c))
    ensures p + 16 + |c.locks| <= |raw|
    ensures ReadWord(raw, p) == c.status && ReadWord(raw, p + 4) == c.pc
    ensures ReadWord(raw, p + 8) == c.sp && ReadWord(raw, p + 12) == c.lr
    ensures raw[p + 16..p + 16 + |c.locks|] == c.locks
  {
    WordThenRest(raw, p, c.status, WordBytes(c.pc) + (WordBytes(c.sp) + (WordBytes(c.lr) + c.locks)));
    WordThenRest(raw, p + 4, c.pc, WordBytes(c.sp) + (WordBytes(c.lr) + c.locks));
    WordThenRest(raw, p + 8, c.sp, WordBytes(c.lr) + c.locks);
    WordThenRest(raw, p + 12, c.lr, c.locks);
  }

  lemma FourParts(raw: seq<u8>, p: nat, a: seq<u8>, b: seq<u8>, c: seq<u8>, d: seq<u8>)
    requires Holds(raw, p, a + (b + (c + d)))
    ensures Holds(raw, p, a) && Holds(raw, p + |a|, b)
    ensures Holds(raw, p + |a| + |b|, c) && Holds(raw, p + |a| + |b| + |c|, d)
  {
    HoldsParts(raw, p, a, b + (c + d));
    HoldsParts(raw, p + |a|, b, c + d);
    HoldsParts(raw, p + |a| + |b|, c, d);
  }

  lemma CorePartsStand(c: CoreTile, raw: seq<u8>, p: nat, p1: nat, p2: nat, p3: nat)
    requires Holds(raw, p, CoreBytes(c))
    requires p1 == p + 4 * |c.dma| && p2 == p1 + 4 * |c.coreEvents| && p3 == p2 + 4 * |c.memEvents|
    ensures Holds(raw, p, WordsBytes(c.dma)) && Holds(raw, p1, WordsBytes(c.coreEvents))
    ensures Holds(raw, p2, WordsBytes(c.memEvents)) && Holds(raw, p3, CoreTail(c))
  {
    FourParts(raw, p, WordsBytes(c.dma), WordsBytes(c.coreEvents), WordsBytes(c.memEvents), CoreTail(c));
  }

  lemma CoreAssembled(c: CoreTile, raw: seq<u8>, p: nat, p1: nat, p2: nat, p3: nat)
    requires p1 == p + 4 * |c.dma| && p2 == p1 + 4 * |c.coreEvents| && p3 == p2 + 4 * |c.memEvents|
    requires |c.coreEvents| == |c.memEvents| && p3 + 16 + |c.locks| <= |raw|
    requires ReadWords(raw, p, |c.dma|) == c.dma && ReadWords(raw, p1, |c.coreEvents|) == c.coreEvents
    requires ReadWords(raw, p2, |c.memEvents|) == c.memEvents
    requires ReadWord(raw, p3) == c.status && ReadWord(raw, p3 + 4) == c.pc
    requires ReadWord(raw, p3 + 8) == c.sp && ReadWord(raw, p3 + 12) == c.lr
    requires raw[p3 + 16..p3 + 16 + |c.locks|] == c.locks
    ensures CoreFrom(raw, p, |c.dma|, |c.coreEvents|, |c.locks|) == c
  {
  }

  lemma CoreFieldsStand(c: CoreTile, raw: seq<u8>, p: nat)
    requires Holds(raw, p, CoreBytes(c)) && |c.coreEvents| == |c.memEvents|
    ensures p + 4 * |c.dma| + 8 * |c.coreEvents| + 16 + |c.locks| <= |raw|
    ensures CoreFrom(raw, p, |c.dma|, |c.coreEvents|, |c.locks|) == c
  {
    var p1 := p + 4 * |c.dma|;
    var p2 := p1 + 4 * |c.coreEvents|;
    var p3 := p2 + 4 * |c.memEvents|;
    CorePartsStand(c, raw, p, p1, p2, p3);
    WordsRoundTrip(raw, p, c.dma);
    WordsRoundTrip(raw, p1, c.coreEvents);
    WordsRoundTrip(raw, p2, c.memEvents);
    CoreTailStands(c, raw, p3);
    CoreAssembled(c, raw, p, p1, p2, p3);
  }

  lemma CoreLength(t: TileShape, c: CoreTile)
    requires FitsCore(t, c)
    ensures |CoreBytes(c)| == CoreSize(t)
  {
    assert |CoreTail(c)| == 16 + |c.locks|;
  }

  /** Where the bytes of a core tile stand, all its fields are read back. */
  lemma CoreRoundTrip(t: TileShape, c: CoreTile, raw: seq<u8>, p: nat)
    requires FitsCore(t, c) && Holds(raw, p, CoreBytes(c))
    ensures |CoreBytes(c)| == CoreSize(t) && p + CoreSize(t) <= |raw| && CoreAt(t, raw, p) == c
  {
    CoreLength(t, c);
    CoreFieldsStand(c, raw, p);
  }

  lemma TileFieldsStand(x: Tile, raw: seq<u8>, p: nat, p1: nat, p2: nat)
    requires Holds(raw, p, TileBytes(x)) && p1 == p + 4 * |x.dma| && p2 == p1 + 4 * |x.events|
    ensures p2 + |x.locks| <= |raw| && ReadWords(raw, p, |x.dma|) == x.dma
    ensures ReadWords(raw, p1, |x.events|) == x.events && raw[p2..p2 + |x.locks|] == x.locks
  {
    ThreeParts(raw, p, WordsBytes(x.dma), WordsBytes(x.events), x.locks);
    WordsRoundTrip(raw, p, x.dma);
    WordsRoundTrip(raw, p1, x.events);
  }

  lemma TileLength(t: TileShape, x: Tile)
    requires FitsTile(t, x)
    ensures |TileBytes(x)| == TileSize(t)
  {
  }

  /** Where the bytes of a mem or shim tile stand, all its fields are read back. */
  lemma TileRoundTrip(t: TileShape, x: Tile, raw: seq<u8>, p: nat)
    requires FitsTile(t, x) && Holds(raw, p, TileBytes(x))
    ensures |TileBytes(x)| == TileSize(t) && p + TileSize(t) <= |raw| && TileAt(t, raw, p) == x
  {
    var p1 := p + 4 * |x.dma|;
    TileLength(t, x);
    TileFieldsStand(x, raw, p, p1, p1 + 4 * |x.events|);
  }

  lemma ThreeParts(raw: seq<u8>, p: nat, a: seq<u8>, b: seq<u8>, c: seq<u8>)
    requires Holds(raw, p, a + (b + c))
    ensures Holds(raw, p, a) && Holds(raw, p + |a|, b) && Holds(raw, p + |a| + |b|, c)
  {
    HoldsParts(raw, p, a, b + c);
    HoldsParts(raw, p + |a|, b, c);
  }

  /** The copies parse_core_tile_buf makes for one tile, the cursor moving past each. */
  method ParseCoreTile(t: TileShape, raw: seq<u8>, start: nat) returns (c: CoreTile, buf: nat)
    requires start + CoreSize(t) <= |raw|
    ensures c == CoreAt(t, raw, start) && buf == start + CoreSize(t)
  {
    buf := start;
    var dma := ReadWords(raw, buf, 2 * t.dmaChannels);
    buf := buf + 8 * t.dmaChannels;
    var coreEvents := ReadWords(raw, buf, t.events);
    buf := buf + 4 * t.events;
    var memEvents := ReadWords(raw, buf, t.events);
    buf := buf + 4 * t.events;
    var status := ReadWord(raw, buf);
    buf := buf + 4;
    var pc := ReadWord(raw, buf);
    buf := buf + 4;
    var sp := ReadWord(raw, buf);
    buf := buf + 4;
    var lr := ReadWord(raw, buf);
    buf := buf + 4;
    var locks := raw[buf..buf + t.locks];
    buf := buf + t.locks;
    c := CoreTile(dma, coreEvents, memEvents, status, pc, sp, lr, locks);
  }

  /** The copies parse_mem_tile_buf and parse_shim_tile_buf make for one tile. */
  method ParseTile(t: TileShape, raw: seq<u8>, start: nat) returns (x: Tile, buf: nat)
    requires start + TileSize(t) <= |raw|
    ensures x == TileAt(t, raw, start) && buf == start + TileSize(t)
  {
    buf := start;
    var dma := ReadWords(raw, buf, 2 * t.dmaChannels);
    buf := buf + 8 * t.dmaChannels;
    var events := ReadWords(raw, buf, t.events);
    buf := buf + 4 * t.events;
    var locks := raw[buf..buf + t.locks];
    buf := buf + t.locks;
    x := Tile(dma, events, locks);
  }

  // ---- tiles of any kind ----

  datatype AnyTile = OfCore(core: CoreTile) | OfOther(tile: Tile)

  function SizeOf(i: Info, kind: TileType): nat {
    match kind
    case Core => CoreSize(i.core)
    case Mem => TileSize(i.mem)
    case Shim => TileSize(i.shim)
  }

  function RowCount(i: Info, kind: TileType): nat {
    match kind
    case Core => i.core.rows
    case Mem => i.mem.rows
    case Shim => i.shim.rows
  }

  ghost predicate FitsKind(i: Info, kind: TileType, tile: AnyTile) {
    match kind
    case Core => tile.OfCore? && FitsCore(i.core, tile.core)
    case Mem => tile.OfOther? && FitsTile(i.mem, tile.tile)
    case Shim => tile.OfOther? && FitsTile(i.shim, tile.tile)
  }

  /** The driver's layout of a tile. */
  function Layout(tile: AnyTile): seq<u8> {
    match tile
    case OfCore(c) => CoreBytes(c)
    case OfOther(x) => TileBytes(x)
  }

  /** The tile of the given kind at position `p`. */
  function DecodeAt(i: Info, kind: TileType, raw: seq<u8>, p: nat): AnyTile
    requires p + SizeOf(i, kind) <= |raw|
  {
    match kind
    case Core => OfCore(CoreAt(i.core, raw, p))
    case Mem => OfOther(TileAt(i.mem, raw, p))
    case Shim => OfOther(TileAt(i.shim, raw, p))
  }

  /** `f` reads tiles of one kind out of the buffer, wherever one fits. */
  ghost predicate Decodes(f: nat -> AnyTile, i: Info, kind: TileType, raw: seq<u8>) {
    forall p: nat {:trigger DecodeAt(i, kind, raw, p)} ::
      p + SizeOf(i, kind) <= |raw| ==> f(p) == DecodeAt(i, kind, raw, p)
  }

  function Decoder(i: Info, kind: TileType, raw: seq<u8>): (f: nat -> AnyTile)
    ensures Decodes(f, i, kind, raw)
  {
    (p: nat) => if p + SizeOf(i, kind) <= |raw| then DecodeAt(i, kind, raw, p) else OfOther(Tile([], [], []))
  }

  /** Where a tile's bytes stand, the tile is read back. */
  lemma KindRoundTrip(f: nat -> AnyTile, i: Info, kind: TileType, tile: AnyTile, raw: seq<u8>, p: nat)
    requires Decodes(f, i, kind, raw) && FitsKind(i, kind, tile) && Holds(raw, p, Layout(tile))
    ensures |Layout(tile)| == SizeOf(i, kind) && f(p) == tile
  {
    match kind {
      case Core => CoreRoundTrip(i.core, tile.core, raw, p);
      case Mem => TileRoundTrip(i.mem, tile.tile, raw, p);
      case Shim => TileRoundTrip(i.shim, tile.tile, raw, p);
    }
    assert f(p) == DecodeAt(i, kind, raw, p);
  }

  /** One tile of any kind at the cursor. */
  method ParseOne(i: Info, kind: TileType, raw: seq<u8>, start: nat, ghost f: nat -> AnyTile)
    returns (tile: AnyTile, buf: nat)
    requires Decodes(f, i, kind, raw) && start + SizeOf(i, kind) <= |raw|
    ensures tile == f(start) && buf == start + SizeOf(i, kind)
  {
    if kind.Core? {
      var c: CoreTile;
      c, buf := ParseCoreTile(i.core, raw, start);
      tile := OfCore(c);
    } else {
      var x: Tile;
      x, buf := ParseTile(if kind.Mem? then i.mem else i.shim, raw, start);
      tile := OfOther(x);
    }
    assert tile == DecodeAt(i, kind, raw, start);
  }

  // ---- rows of tiles ----

  /** The position behind `n` blocks of `size` bytes from `p` on. */
  function After(p: nat, size: nat, n: nat): (q: nat)
    ensures q >= p
    decreases n
  {
    if n == 0 then p else After(p + size, size, n - 1)
  }

  lemma {:induction false} AfterIs(p: nat, size: nat, n: nat)
    ensures After(p, size, n) == p + size * n
    decreases n
  {
    if n > 0 {
      AfterIs(p + size, size, n - 1);
      MulNext(size, n - 1);
    }
  }

  lemma AfterShift(p: nat, q: nat, size: nat, n: nat)
    ensures After(p + q, size, n) == p + After(q, size, n)
  {
    AfterIs(p + q, size, n);
    AfterIs(q, size, n);
  }

  /** What `f` reads at `n` positions, `size` apart, from `p` on. */
  function Every<T>(f: nat -> T, p: nat, size: nat, n: nat): (r: seq<T>)
    ensures |r| == n
    decreases n
  {
    if n == 0 then [] else [f(p)] + Every(f, p + size, size, n - 1)
  }

  /** What is read at step `k`, and where the next step is. */
  lemma {:induction false} EveryAt<T>(f: nat -> T, p: nat, size: nat, n: nat, k: nat)
    requires k < n
    ensures Every(f, p, size, n)[k] == f(After(p, size, k))
    ensures After(p, size, k) + size == After(p, size, k + 1) <= After(p, size, n)
    decreases k
  {
    if k > 0 {
      EveryAt(f, p + size, size, n - 1, k - 1);
    }
  }

  /** The inner loop of a parser: the tiles of one column, one after another. */
  method ParseRows(i: Info, kind: TileType, raw: seq<u8>, start: nat, n: nat, ghost f: nat -> AnyTile)
    returns (tiles: seq<AnyTile>, buf: nat)
    requires Decodes(f, i, kind, raw) && After(start, SizeOf(i, kind), n) <= |raw|
    ensures tiles == Every(f, start, SizeOf(i, kind), n) && buf == After(start, SizeOf(i, kind), n)
  {
    tiles, buf := [], start;
    ghost var size := SizeOf(i, kind);
    ghost var all := Every(f, start, size, n);
    while |tiles| < n
      invariant |tiles| <= n && buf == After(start, size, |tiles|) && tiles == all[..|tiles|]
    {
      EveryAt(f, start, size, n, |tiles|);
      var tile: AnyTile;
      tile, buf := ParseOne(i, kind, raw, buf, f);
      tiles := tiles + [tile];
    }
  }

  function Concat(parts: seq<seq<u8>>): seq<u8> {
    if parts == [] then [] else parts[0] + Concat(parts[1..])
  }

  /** Wherever `part` stands, `f` reads `x`. */
  ghost predicate ReadsAs<T>(f: nat -> T, raw: seq<u8>, part: seq<u8>, x: T) {
    forall q: nat {:trigger Holds(raw, q, part)} :: Holds(raw, q, part) ==> f(q) == x
  }

  /** Parts of one size laid end to end are read back in order. */
  lemma {:induction false} EveryRoundTrip<T>(f: nat -> T, raw: seq<u8>, parts: seq<seq<u8>>, xs: seq<T>,
                                             p: nat, size: nat)
    requires |parts| == |xs| && Holds(raw, p, Concat(parts))
    requires forall k :: 0 <= k < |parts| ==> |parts[k]| == size && ReadsAs(f, raw, parts[k], xs[k])
    ensures p + |Concat(parts)| == After(p, size, |xs|) <= |raw| && Every(f, p, size, |xs|) == xs
    decreases |xs|
  {
    if xs != [] {
      HoldsParts(raw, p, parts[0], Concat(parts[1..]));
      assert ReadsAs(f, raw, parts[0], xs[0]);
      EveryRoundTrip(f, raw, parts[1..], xs[1..], p + size, size);
    }
  }

  // ---- columns of rows ----

  /** Where one kind of tile stands in a column: skip `before`, read `rows` tiles of `size`, skip `after`. */
  datatype Stride = Stride(before: nat, size: nat, rows: nat, after: nat, total: nat)

  ghost predicate AddsUp(s: Stride) {
    s.total == After(s.before, s.size, s.rows) + s.after
  }

  /** The bytes in front of a kind, given the bytes of the core and of the mem rows. */
  function Before(kind: TileType, core: nat, mem: nat): nat {
    match kind
    case Core => 0
    case Mem => core
    case Shim => core + mem
  }

  function StrideOf(i: Info, kind: TileType): (s: Stride)
    ensures s.size == SizeOf(i, kind) && s.rows == RowCount(i, kind) && s.total == ColumnSize(i)
  {
    var core, mem, shim := CoreSize(i.core) * i.core.rows, TileSize(i.mem) * i.mem.rows, TileSize(i.shim) * i.shim.rows;
    Stride(Before(kind, core, mem), SizeOf(i, kind), RowCount(i, kind),
           if kind.Core? then mem + shim else if kind.Mem? then shim else 0, ColumnSize(i))
  }

  /** Whichever kind is read, the skips and tiles add up to exactly one column. */
  lemma StrideIsColumn(i: Info, kind: TileType)
    ensures AddsUp(StrideOf(i, kind))
  {
    AfterIs(StrideOf(i, kind).before, SizeOf(i, kind), RowCount(i, kind));
  }

  /** The tiles of one kind in the column at position `p`. */
  function ColumnAt(f: nat -> AnyTile, s: Stride, p: nat): seq<AnyTile> {
    Every(f, p + s.before, s.size, s.rows)
  }

  /** `g` reads columns, given that `f` reads their tiles. */
  ghost predicate ReadsColumns(g: nat -> seq<AnyTile>, f: nat -> AnyTile, s: Stride) {
    forall p: nat {:trigger ColumnAt(f, s, p)} :: g(p) == ColumnAt(f, s, p)
  }

  function ColumnReader(f: nat -> AnyTile, s: Stride): (g: nat -> seq<AnyTile>)
    ensures ReadsColumns(g, f, s)
  {
    (p: nat) => ColumnAt(f, s, p)
  }

  method ParseColumn(i: Info, kind: TileType, s: Stride, raw: seq<u8>, start: nat,
                     ghost f: nat -> AnyTile, ghost g: nat -> seq<AnyTile>)
    returns (tiles: seq<AnyTile>, buf: nat)
    requires Decodes(f, i, kind, raw) && ReadsColumns(g, f, s)
    requires s.size == SizeOf(i, kind) && AddsUp(s) && start + s.total <= |raw|
    ensures tiles == g(start) && buf == start + s.total
  {
    AfterShift(start, s.before, s.size, s.rows);
    buf := start + s.before;
    tiles, buf := ParseRows(i, kind, raw, buf, s.rows, f);
    buf := buf + s.after;
    assert tiles == ColumnAt(f, s, start);
  }

  /** The walk every parser makes: skip, read one kind of tile, skip, once per column. */
  method ParseColumns(i: Info, kind: TileType, s: Stride, raw: seq<u8>, n: nat,
                      ghost f: nat -> AnyTile, ghost g: nat -> seq<AnyTile>)
    returns (columns: seq<seq<AnyTile>>)
    requires Decodes(f, i, kind, raw) && ReadsColumns(g, f, s)
    requires s.size == SizeOf(i, kind) && AddsUp(s) && After(0, s.total, n) <= |raw|
    ensures columns == Every(g, 0, s.total, n)
  {
    columns := [];
    var buf: nat := 0;
    ghost var all := Every(g, 0, s.total, n);
    while |columns| < n
      invariant |columns| <= n && buf == After(0, s.total, |columns|) && columns == all[..|columns|]
    {
      EveryAt(g, 0, s.total, n, |columns|);
      var tiles: seq<AnyTile>;
      tiles, buf := ParseColumn(i, kind, s, raw, buf, f, g);
      columns := columns + [tiles];
    }
  }

  /** What the parser of a kind returns for `n` columns of a buffer. */
  function Parsed(i: Info, kind: TileType, raw: seq<u8>, n: nat): (columns: seq<seq<AnyTile>>)
    ensures |columns| == n
  {
    Every(ColumnReader(Decoder(i, kind, raw), StrideOf(i, kind)), 0, ColumnSize(i), n)
  }

  // ---- the layout recovers every kind of tile ----

  /** The tiles of one kind of a column. */
  function RowsOf(kind: TileType, c: Column): seq<AnyTile> {
    match kind
    case Core => seq(|c.core|, k requires 0 <= k < |c.core| => OfCore(c.core[k]))
    case Mem => seq(|c.mem|, k requires 0 <= k < |c.mem| => OfOther(c.mem[k]))
    case Shim => seq(|c.shim|, k requires 0 <= k < |c.shim| => OfOther(c.shim[k]))
  }

  ghost predicate FitsRows(i: Info, kind: TileType, tiles: seq<AnyTile>) {
    |tiles| == RowCount(i, kind) && forall k :: 0 <= k < |tiles| ==> FitsKind(i, kind, tiles[k])
  }

  ghost predicate Fits(i: Info, c: Column) {
    FitsRows(i, Core, RowsOf(Core, c)) && FitsRows(i, Mem, RowsOf(Mem, c)) && FitsRows(i, Shim, RowsOf(Shim, c))
  }

  function Parts(tiles: seq<AnyTile>): (r: seq<seq<u8>>)
    ensures |r| == |tiles|
  {
    seq(|tiles|, k requires 0 <= k < |tiles| => Layout(tiles[k]))
  }

  /** The driver's layout of the tiles of one kind of a column. */
  function KindBytes(kind: TileType, c: Column): seq<u8> {
    Concat(Parts(RowsOf(kind, c)))
  }

  /** The driver's layout of a column: core rows, then mem rows, then shim rows. */
  function ColumnBytes(c: Column): seq<u8> {
    KindBytes(Core, c) + (KindBytes(Mem, c) + KindBytes(Shim, c))
  }

  lemma HoldsItself(b: seq<u8>)
    ensures Holds(b, 0, b)
  {
    assert b[0..|b|] == b;
  }

  lemma TileReadsAs(f: nat -> AnyTile, i: Info, kind: TileType, tile: AnyTile, raw: seq<u8>)
    requires Decodes(f, i, kind, raw) && FitsKind(i, kind, tile)
    ensures |Layout(tile)| == SizeOf(i, kind) && ReadsAs(f, raw, Layout(tile), tile)
  {
    HoldsItself(Layout(tile));
    KindRoundTrip(Decoder(i, kind, Layout(tile)), i, kind, tile, Layout(tile), 0);
    forall q: nat | Holds(raw, q, Layout(tile)) ensures f(q) == tile {
      KindRoundTrip(f, i, kind, tile, raw, q);
    }
  }

  /** Where the tiles of a kind stand, they are read back. */
  lemma KindReadBack(f: nat -> AnyTile, i: Info, kind: TileType, tiles: seq<AnyTile>, raw: seq<u8>, p: nat)
    requires Decodes(f, i, kind, raw) && FitsRows(i, kind, tiles) && Holds(raw, p, Concat(Parts(tiles)))
    ensures p + |Concat(Parts(tiles))| == After(p, SizeOf(i, kind), RowCount(i, kind))
    ensures Every(f, p, SizeOf(i, kind), RowCount(i, kind)) == tiles
  {
    forall k | 0 <= k < |tiles|
      ensures |Parts(tiles)[k]| == SizeOf(i, kind) && ReadsAs(f, raw, Parts(tiles)[k], tiles[k])
    {
      TileReadsAs(f, i, kind, tiles[k], raw);
    }
    EveryRoundTrip(f, raw, Parts(tiles), tiles, p, SizeOf(i, kind));
  }

  lemma KindLength(i: Info, kind: TileType, tiles: seq<AnyTile>)
    requires FitsRows(i, kind, tiles)
    ensures |Concat(Parts(tiles))| == SizeOf(i, kind) * RowCount(i, kind)
  {
    var b := Concat(Parts(tiles));
    HoldsItself(b);
    KindReadBack(Decoder(i, kind, b), i, kind, tiles, b, 0);
    AfterIs(0, SizeOf(i, kind), RowCount(i, kind));
  }

  lemma ColumnLength(i: Info, c: Column)
    requires Fits(i, c)
    ensures |ColumnBytes(c)| == ColumnSize(i)
  {
    KindLength(i, Core, RowsOf(Core, c));
    KindLength(i, Mem, RowsOf(Mem, c));
    KindLength(i, Shim, RowsOf(Shim, c));
  }

  /** The tiles of a kind stand behind the tiles of the kinds before it. */
  lemma KindPosition(bytes: TileType -> seq<u8>, kind: TileType, raw: seq<u8>, p: nat)
    requires Holds(raw, p, bytes(Core) + (bytes(Mem) + bytes(Shim)))
    ensures Holds(raw, p + Before(kind, |bytes(Core)|, |bytes(Mem)|), bytes(kind))
  {
    ThreeParts(raw, p, bytes(Core), bytes(Mem), bytes(Shim));
  }

  /** `s` leads to the tiles of a kind in a column laid out as `bytes`. */
  ghost predicate LeadsTo(s: Stride, i: Info, kind: TileType, bytes: TileType -> seq<u8>) {
    && s.size == SizeOf(i, kind) && s.rows == RowCount(i, kind)
    && s.before == Before(kind, |bytes(Core)|, |bytes(Mem)|)
  }

  /** Where a column's bytes stand, its tiles of any kind are read back. */
  lemma ColumnRoundTrip(f: nat -> AnyTile, s: Stride, i: Info, kind: TileType, bytes: TileType -> seq<u8>,
                        tiles: seq<AnyTile>, raw: seq<u8>, p: nat)
    requires Decodes(f, i, kind, raw) && LeadsTo(s, i, kind, bytes)
    requires FitsRows(i, kind, tiles) && bytes(kind) == Concat(Parts(tiles))
    requires Holds(raw, p, bytes(Core) + (bytes(Mem) + bytes(Shim)))
    ensures ColumnAt(f, s, p) == tiles
  {
    KindPosition(bytes, kind, raw, p);
    KindReadBack(f, i, kind, tiles, raw, p + s.before);
  }

  function LayoutOf(c: Column): (bytes: TileType -> seq<u8>)
    ensures bytes(Core) + (bytes(Mem) + bytes(Shim)) == ColumnBytes(c)
    ensures forall kind {:trigger bytes(kind)} :: bytes(kind) == KindBytes(kind, c)
  {
    (kind: TileType) => KindBytes(kind, c)
  }

  lemma StrideLeads(i: Info, kind: TileType, c: Column)
    requires Fits(i, c)
    ensures LeadsTo(StrideOf(i, kind), i, kind, LayoutOf(c)) && FitsRows(i, kind, RowsOf(kind, c))
  {
    KindLength(i, Core, RowsOf(Core, c));
    KindLength(i, Mem, RowsOf(Mem, c));
  }

  lemma ColumnReadsAs(f: nat -> AnyTile, g: nat -> seq<AnyTile>, s: Stride, i: Info, c: Column, kind: TileType,
                      raw: seq<u8>)
    requires Decodes(f, i, kind, raw) && ReadsColumns(g, f, s)
    requires LeadsTo(s, i, kind, LayoutOf(c)) && FitsRows(i, kind, RowsOf(kind, c))
    ensures ReadsAs(g, raw, ColumnBytes(c), RowsOf(kind, c))
  {
    forall q: nat | Holds(raw, q, ColumnBytes(c)) ensures g(q) == RowsOf(kind, c) {
      ColumnRoundTrip(f, s, i, kind, LayoutOf(c), RowsOf(kind, c), raw, q);
    }
  }

  function ColumnParts(cols: seq<Column>): (r: seq<seq<u8>>)
    ensures |r| == |cols|
  {
    seq(|cols|, c requires 0 <= c < |cols| => ColumnBytes(cols[c]))
  }

  /** The tiles of one kind of each column. */
  function KindOf(kind: TileType, cols: seq<Column>): (r: seq<seq<AnyTile>>)
    ensures |r| == |cols|
  {
    seq(|cols|, c requires 0 <= c < |cols| => RowsOf(kind, cols[c]))
  }

  /** Any of the three parsers, run over laid-out columns and whatever follows them, recovers its tiles. */
  lemma ParsersRecover(i: Info, kind: TileType, cols: seq<Column>, raw: seq<u8>)
    requires (forall k :: 0 <= k < |cols| ==> Fits(i, cols[k])) && Holds(raw, 0, Concat(ColumnParts(cols)))
    ensures ColumnSize(i) * |cols| <= |raw| && Parsed(i, kind, raw, |cols|) == KindOf(kind, cols)
  {
    var s, f := StrideOf(i, kind), Decoder(i, kind, raw);
    var g := ColumnReader(f, s);
    forall k | 0 <= k < |cols|
      ensures |ColumnParts(cols)[k]| == s.total && ReadsAs(g, raw, ColumnParts(cols)[k], KindOf(kind, cols)[k])
    {
      ColumnLength(i, cols[k]);
      StrideLeads(i, kind, cols[k]);
      ColumnReadsAs(f, g, s, i, cols[k], kind, raw);
    }
    EveryRoundTrip(g, raw, ColumnParts(cols), KindOf(kind, cols), 0, s.total);
    AfterIs(0, ColumnSize(i), |cols|);
  }

  // ---- the bitmap of active columns ----

  function PopCount(b: nat): nat {
    if b == 0 then 0 else b % 2 + PopCount(b / 2)
  }

  /** How many columns before `col` are active. */
  function Rank(b: nat, col: nat): nat {
    if col == 0 then 0 else Rank(b, col - 1) + (if Bit(b, col - 1) then 1 else 0)
  }

  lemma {:induction false} RankHalf(b: nat, col: nat)
    ensures Rank(b, col + 1) == b % 2 + Rank(b / 2, col)
    decreases col
  {
    if col > 0 {
      RankHalf(b, col - 1);
    }
  }

  lemma {:induction false} RankMonotone(b: nat, j: nat, k: nat)
    requires j <= k
    ensures Rank(b, j) <= Rank(b, k)
    decreases k
  {
    if j < k {
      RankMonotone(b, j, k - 1);
    }
  }

  lemma {:induction false} RankOfZero(k: nat)
    ensures Rank(0, k) == 0
  {
    if k > 0 {
      RankOfZero(k - 1);
      BitOfZero(k - 1);
    }
  }

  /** With no bits at or beyond `cols`, the rank of `cols` counts every active column. */
  lemma {:induction false} RankIsPopCount(b: nat, cols: nat)
    requires b < Pow2(cols)
    ensures Rank(b, cols) == PopCount(b)
    decreases cols
  {
    if b == 0 {
      RankOfZero(cols);
    } else {
      RankHalf(b, cols - 1);
      RankIsPopCount(b / 2, cols - 1);
    }
  }

  /** Every active column's entry exists. */
  lemma RankInRange(b: nat, cols: nat, col: nat)
    requires b < Pow2(cols) && col < cols && Bit(b, col)
    ensures Rank(b, col) < PopCount(b)
  {
    RankIsPopCount(b, cols);
    RankMonotone(b, col + 1, cols);
  }

  /** The allocation loop: one entry per set bit. */
  method CountActive(colsFilled: u32) returns (entries: nat)
    ensures entries == PopCount(colsFilled)
  {
    entries := 0;
    var b: nat := colsFilled;
    while b != 0
      invariant entries + PopCount(b) == PopCount(colsFilled)
    {
      if b % 2 == 1 {
        entries := entries + 1;
      }
      b := b / 2;
    }
  }

  /** The length check covers every column a parser walks. */
  lemma EntriesFit(i: Info, kind: TileType, n: nat)
    ensures AddsUp(StrideOf(i, kind)) && After(0, StrideOf(i, kind).total, n) == ColumnSize(i) * n
  {
    StrideIsColumn(i, kind);
    AfterIs(0, ColumnSize(i), n);
  }

  datatype Error = NoContext | BitsBeyondColumns | BufferTooSmall | BadColumnSize

  /** aie_info_sanity_check and get_aie_data: refuse what does not add up, then parse. */
  method GetAieData(i: Info, colsFilled: u32, buf: seq<u8>, kind: TileType)
    returns (r: Result<seq<seq<AnyTile>>, Error>)
    requires i.cols < 32
    ensures r == (if i.colSize == 0 || ColumnSize(i) != i.colSize then Err(BadColumnSize)
                  else if colsFilled == 0 then Err(NoContext)
                  else if colsFilled >= Pow2(i.cols) then Err(BitsBeyondColumns)
                  else if |buf| < i.colSize * PopCount(colsFilled) then Err(BufferTooSmall)
                  else Ok(Parsed(i, kind, buf, PopCount(colsFilled))))
  {
    if i.colSize == 0 || ColumnSize(i) != i.colSize {
      return Err(BadColumnSize);
    }
    if colsFilled == 0 {
      return Err(NoContext);
    }
    ShiftedOut(colsFilled, Pow2(i.cols));
    if colsFilled / Pow2(i.cols) != 0 {
      return Err(BitsBeyondColumns);
    }
    var entries := CountActive(colsFilled);
    if |buf| < i.colSize * entries {
      return Err(BufferTooSmall);
    }
    EntriesFit(i, kind, entries);
    ghost var f := Decoder(i, kind, buf);
    var tiles := ParseColumns(i, kind, StrideOf(i, kind), buf, entries, f, ColumnReader(f, StrideOf(i, kind)));
    r := Ok(tiles);
  }

  lemma ShiftedOut(x: nat, p: nat)
    requires p > 0
    ensures x / p == 0 <==> x < p
  {
    DivMod(x, p);
    if x < p {
      ModUnique(x, p, 0, x);
    }
  }

  datatype Shown = Inactive | Active(tiles: seq<AnyTile>)

  /** The display loop: the running count of active columns picks each column's entry. */
  method FormatColumns(cols: nat, colsFilled: u32, entries: seq<seq<AnyTile>>) returns (shown: seq<Shown>)
    requires cols < 32 && colsFilled < Pow2(cols) && |entries| == PopCount(colsFilled)
    ensures |shown| == cols
    ensures forall col :: 0 <= col < cols ==>
              if Bit(colsFilled, col) then
                Rank(colsFilled, col) < |entries| && shown[col] == Active(entries[Rank(colsFilled, col)])
              else shown[col] == Inactive
    ensures Rank(colsFilled, cols) == |entries|
  {
    shown := [];
    var active := 0;
    for col := 0 to cols
      invariant |shown| == col && active == Rank(colsFilled, col)
      invariant forall k :: 0 <= k < col ==>
                  if Bit(colsFilled, k) then
                    Rank(colsFilled, k) < |entries| && shown[k] == Active(entries[Rank(colsFilled, k)])
                  else shown[k] == Inactive
    {
      AndBit(colsFilled, col);
      if And(colsFilled, Pow2(col)) == 0 {
        shown := shown + [Inactive];
      } else {
        RankInRange(colsFilled, cols, col);
        shown := shown + [Active(entries[active])];
        active := active + 1;
      }
    }
    RankIsPopCount(colsFilled, cols);
  }

  // ---- from the device's columns to the display ----

  datatype Option<T> = None | Some(value: T)

  /** The device's bitmap: a bit for every column that has something to report. */
  function Bitmap(dev: seq<Option<Column>>): nat {
    if dev == [] then 0 else (if dev[0].Some? then 1 else 0) + 2 * Bitmap(dev[1..])
  }

  function ActiveColumns(dev: seq<Option<Column>>): seq<Column> {
    if dev == [] then []
    else (if dev[0].Some? then [dev[0].value] else []) + ActiveColumns(dev[1..])
  }

  lemma {:induction false} BitmapBits(dev: seq<Option<Column>>, k: nat)
    requires k < |dev|
    ensures Bit(Bitmap(dev), k) <==> dev[k].Some?
    ensures Bitmap(dev) < Pow2(|dev|)
    ensures PopCount(Bitmap(dev)) == |ActiveColumns(dev)|
    decreases |dev|
  {
    BitmapHalf(dev);
    if |dev| > 1 {
      BitmapBits(dev[1..], if k == 0 then 0 else k - 1);
    } else {
      assert dev[1..] == [];
    }
  }

  lemma BitmapHalf(dev: seq<Option<Column>>)
    requires dev != []
    ensures Bitmap(dev) / 2 == Bitmap(dev[1..]) && Bitmap(dev) % 2 == if dev[0].Some? then 1 else 0
  {
  }

  lemma RankOfTail(dev: seq<Option<Column>>, k: nat)
    requires 0 < k < |dev|
    ensures Rank(Bitmap(dev), k) == (if dev[0].Some? then 1 else 0) + Rank(Bitmap(dev[1..]), k - 1)
  {
    BitmapHalf(dev);
    RankHalf(Bitmap(dev), k - 1);
  }

  lemma ActiveOfTail(dev: seq<Option<Column>>, r: nat)
    requires dev != [] && r < |ActiveColumns(dev[1..])|
    ensures var q := (if dev[0].Some? then 1 else 0) + r;
            q < |ActiveColumns(dev)| && ActiveColumns(dev)[q] == ActiveColumns(dev[1..])[r]
  {
  }

  /** An active column is the entry at its rank among the active ones. */
  lemma {:induction false} RankFindsColumn(dev: seq<Option<Column>>, k: nat)
    requires k < |dev| && dev[k].Some?
    ensures Rank(Bitmap(dev), k) < |ActiveColumns(dev)|
    ensures ActiveColumns(dev)[Rank(Bitmap(dev), k)] == dev[k].value
    decreases |dev|
  {
    if k > 0 {
      RankFindsColumn(dev[1..], k - 1);
      RankOfTail(dev, k);
      ActiveOfTail(dev, Rank(Bitmap(dev[1..]), k - 1));
    }
  }

  /**
   * End to end: whatever kind is asked for, the entry the display picks for an active column holds that
   * column's tiles of that kind, field by field as the device has them.
   */
  lemma DisplayShowsDevice(i: Info, kind: TileType, dev: seq<Option<Column>>, raw: seq<u8>, k: nat)
    requires forall c :: 0 <= c < |dev| && dev[c].Some? ==> Fits(i, dev[c].value)
    requires Holds(raw, 0, Concat(ColumnParts(ActiveColumns(dev))))
    requires k < |dev| && dev[k].Some?
    ensures var n := PopCount(Bitmap(dev));
            && ColumnSize(i) * n <= |raw|
            && Rank(Bitmap(dev), k) < n
            && Parsed(i, kind, raw, n)[Rank(Bitmap(dev), k)] == RowsOf(kind, dev[k].value)
  {
    BitmapBits(dev, k);
    RankFindsColumn(dev, k);
    ActiveFit(i, dev);
    ParsersRecover(i, kind, ActiveColumns(dev), raw);
  }

  lemma {:induction false} ActiveFit(i: Info, dev: seq<Option<Column>>)
    requires forall c :: 0 <= c < |dev| && dev[c].Some? ==> Fits(i, dev[c].value)
    ensures forall c :: 0 <= c < |ActiveColumns(dev)| ==> Fits(i, ActiveColumns(dev)[c])
    decreases |dev|
  {
    if dev != [] {
      ActiveFit(i, dev[1..]);
    }
  }
}
