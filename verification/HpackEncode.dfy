/** What the deflater writes, as a function of its table: `deflate_nv` and
    `nghttp2_hd_deflate_hd_bufs` on values. */
module HpackEncode {
  import opened Bytes
  import PrefixInt
  import HuffmanCodec
  import opened HpackTable

  /** `nghttp2_nv` with its NO_INDEX flag. */
  datatype Header = Header(name: seq<byte>, value: seq<byte>, noIndex: bool)

  function FieldOf(h: Header): Field { Field(h.name, h.value) }

  // nghttp2_token values that steer indexing
  const TOKEN_PATH := 3
  const TOKEN_AGE := 20
  const TOKEN_AUTHORIZATION := 22
  const TOKEN_CONTENT_LENGTH := 27
  const TOKEN_COOKIE := 31
  const TOKEN_ETAG := 33
  const TOKEN_IF_MODIFIED_SINCE := 39
  const TOKEN_IF_NONE_MATCH := 40
  const TOKEN_LOCATION := 45
  const TOKEN_SET_COOKIE := 54

  /** The token of a name in the static table is its first index there; 61 stands for the others. */
  function StaticToken(c: Consts, name: seq<byte>): nat { FirstName(c.fixed, name, 0) }

  datatype Mode = WithIndexing | WithoutIndexing | NeverIndexing

  /** The indexing mode `deflate_nv` chooses under table bound `max`. */
  function ModeOf(c: Consts, max: nat, h: Header): Mode
  {
    var token := StaticToken(c, h.name);
    if token == TOKEN_AUTHORIZATION || (token == TOKEN_COOKIE && |h.value| < 20) || h.noIndex then NeverIndexing
    else if token in {TOKEN_PATH, TOKEN_AGE, TOKEN_CONTENT_LENGTH, TOKEN_ETAG, TOKEN_IF_MODIFIED_SINCE,
                      TOKEN_IF_NONE_MATCH, TOKEN_LOCATION, TOKEN_SET_COOKIE}
            || Room(FieldOf(h)) > max * 3 / 4
    then WithoutIndexing
    else WithIndexing
  }

  /** `pack_first_byte`. */
  function FirstByte(m: Mode): byte
  {
    match m case WithIndexing => 0x40 case WithoutIndexing => 0 case NeverIndexing => 0x10
  }

  function NamePrefix(m: Mode): (p: nat)
    ensures 1 <= p <= 8
  {
    if m.WithIndexing? then 6 else 4
  }

  /** `emit_string`: Huffman form only when it is strictly shorter. */
  function StringBytes(c: Consts, s: seq<byte>): seq<byte>
  {
    var z := HuffmanCodec.Encode(c.code, s);
    if |z| < |s| then PrefixInt.Encode(0x80, |z|, 7) + z else PrefixInt.Encode(0, |s|, 7) + s
  }

  /** `emit_indexed_block`, `emit_indname_block`, `emit_newname_block`. */
  function FieldBytes(c: Consts, m: Match, mode: Mode, h: Header): seq<byte>
  {
    match m
    case ExactMatch(i) => PrefixInt.Encode(0x80, i + 1, 7)
    case NameMatch(i) => PrefixInt.Encode(FirstByte(mode), i + 1, NamePrefix(mode)) + StringBytes(c, h.value)
    case NoMatch => [FirstByte(mode)] + StringBytes(c, h.name) + StringBytes(c, h.value)
  }

  function SearchFor(c: Consts, t: seq<Field>, max: nat, h: Header): Match
  {
    Search(c.fixed, t, FieldOf(h), ModeOf(c, max, h).NeverIndexing?)
  }

  /** `deflate_nv`: the octets and the table afterwards. */
  function HeaderBytes(c: Consts, t: seq<Field>, max: nat, h: Header): seq<byte>
  {
    FieldBytes(c, SearchFor(c, t, max, h), ModeOf(c, max, h), h)
  }

  function TableAfter(c: Consts, t: seq<Field>, max: nat, h: Header): seq<Field>
  {
    if !SearchFor(c, t, max, h).ExactMatch? && ModeOf(c, max, h).WithIndexing?
    then Insert(t, FieldOf(h), max) else t
  }

  function ListBytes(c: Consts, t: seq<Field>, max: nat, hs: seq<Header>): seq<byte>
    decreases |hs|
  {
    if hs == [] then []
    else HeaderBytes(c, t, max, hs[0]) + ListBytes(c, TableAfter(c, t, max, hs[0]), max, hs[1..])
  }

  function ListTable(c: Consts, t: seq<Field>, max: nat, hs: seq<Header>): seq<Field>
    decreases |hs|
  {
    if hs == [] then t else ListTable(c, TableAfter(c, t, max, hs[0]), max, hs[1..])
  }

  /** The deflater's fields: table, bound in force, own limit, smallest bound since the last block. */
  datatype Encoder = Encoder(table: seq<Field>, max: nat, limit: nat, minMax: nat, notify: bool) {
    ghost predicate Valid()
    {
      && Size(table) <= max <= limit
      && (notify || minMax == UINT32_MAX)
    }
  }

  const DEFAULT_TABLE_SIZE: nat := 4096

  /** `nghttp2_hd_deflate_init2`. */
  function InitEncoder(limit: nat): (e: Encoder)
  {
    Encoder([], Min(limit, DEFAULT_TABLE_SIZE), limit, UINT32_MAX, limit < DEFAULT_TABLE_SIZE)
  }

  /** `nghttp2_hd_deflate_change_table_size`. */
  function ResizeEncoder(e: Encoder, size: nat): (r: Encoder)
    ensures e.Valid() ==> r.Valid()
  {
    var next := Min(size, e.limit);
    Encoder(Shrink(e.table, next), next, e.limit, Min(e.minMax, next), true)
  }

  /** `emit_table_size`. */
  function SizeUpdate(n: nat): seq<byte> { PrefixInt.Encode(0x20, n, 5) }

  function Prelude(e: Encoder): seq<byte>
  {
    if !e.notify then []
    else (if e.max > e.minMax then SizeUpdate(e.minMax) else []) + SizeUpdate(e.max)
  }

  /** `nghttp2_hd_deflate_hd_bufs`. */
  function BlockBytes(c: Consts, e: Encoder, hs: seq<Header>): seq<byte>
  {
    Prelude(e) + ListBytes(c, e.table, e.max, hs)
  }

  function EncoderAfter(c: Consts, e: Encoder, hs: seq<Header>): (r: Encoder)
    ensures e.Valid() ==> r.Valid()
  {
    ListTableFits(c, e.table, e.max, hs);
    Encoder(ListTable(c, e.table, e.max, hs), e.max, e.limit, UINT32_MAX, false)
  }

  lemma {:induction false} ListTableFits(c: Consts, t: seq<Field>, max: nat, hs: seq<Header>)
    ensures Size(t) <= max ==> Size(ListTable(c, t, max, hs)) <= max
    decreases |hs|
  {
    if hs != [] {
      InsertFits(t, FieldOf(hs[0]), max);
      ListTableFits(c, TableAfter(c, t, max, hs[0]), max, hs[1..]);
    }
  }

  // ----- nghttp2_hd_deflate_bound -----

  function HeaderBound(h: Header): nat { 12 + |h.name| + |h.value| }

  /** `nghttp2_hd_deflate_bound`. */
  function DeflateBound(hs: seq<Header>): nat
  {
    if hs == [] then 12 else HeaderBound(hs[0]) + DeflateBound(hs[1..])
  }

  const MAX_STRING: nat := 0x1000_0000

  predicate ShortStrings(hs: seq<Header>)
  {
    forall i :: 0 <= i < |hs| ==> |hs[i].name| < MAX_STRING && |hs[i].value| < MAX_STRING
  }

  lemma StringBound(c: Consts, s: seq<byte>)
    requires |s| < MAX_STRING
    ensures |StringBytes(c, s)| <= 5 + |s|
  {
    hide PrefixInt.Encode, HuffmanCodec.Encode;
    var z := HuffmanCodec.Encode(c.code, s);
    if |z| < |s| {
      PrefixInt.ShortEncodeLength(0x80, |z|, 7);
    } else {
      PrefixInt.ShortEncodeLength(0, |s|, 7);
    }
  }

  lemma IndexInRange(t: seq<Field>, max: nat)
    requires Size(t) <= max <= UINT32_MAX
    ensures STATIC_LENGTH + |t| < UINT32_MAX
  {
    SizeCount(t);
  }

  lemma HeaderWithinBound(c: Consts, t: seq<Field>, max: nat, h: Header)
    requires Size(t) <= max <= UINT32_MAX && |h.name| < MAX_STRING && |h.value| < MAX_STRING
    ensures |HeaderBytes(c, t, max, h)| <= HeaderBound(h)
  {
    hide PrefixInt.Encode, StringBytes, Search, ModeOf;
    IndexInRange(t, max);
    StringBound(c, h.name);
    StringBound(c, h.value);
    var mode := ModeOf(c, max, h);
    match SearchFor(c, t, max, h)
    case ExactMatch(i) => PrefixInt.EncodeLength(0x80, i + 1, 7);
    case NameMatch(i) => PrefixInt.EncodeLength(FirstByte(mode), i + 1, NamePrefix(mode));
    case NoMatch =>
  }

  lemma {:induction false} ListWithinBound(c: Consts, t: seq<Field>, max: nat, hs: seq<Header>)
    requires Size(t) <= max <= UINT32_MAX
    requires ShortStrings(hs)
    ensures |ListBytes(c, t, max, hs)| + 12 <= DeflateBound(hs)
    decreases |hs|
  {
    hide HeaderBytes, HeaderBound, ModeOf, Search;
    if hs != [] {
      HeaderWithinBound(c, t, max, hs[0]);
      InsertFits(t, FieldOf(hs[0]), max);
      ListWithinBound(c, TableAfter(c, t, max, hs[0]), max, hs[1..]);
    }
  }

  /** `nghttp2_hd_deflate_bound` is an upper bound of every block the encoder can write. */
  lemma BlockWithinBound(c: Consts, e: Encoder, hs: seq<Header>)
    requires e.Valid() && e.max <= UINT32_MAX && e.minMax <= UINT32_MAX
    requires ShortStrings(hs)
    ensures |BlockBytes(c, e, hs)| <= DeflateBound(hs)
  {
    hide PrefixInt.Encode, ListBytes;
    ListWithinBound(c, e.table, e.max, hs);
    PrefixInt.EncodeLength(0x20, e.minMax, 5);
    PrefixInt.EncodeLength(0x20, e.max, 5);
  }
}
