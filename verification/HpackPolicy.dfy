/** Which representation the deflater chooses, said of the octets it writes and of the table it leaves, with the
    names as octets: secrets are never indexed, what changes often is not indexed, everything else is. */
module HpackPolicy {
  import opened Bytes
  import PrefixInt
  import HuffmanCodec
  import opened HpackTable
  import opened HpackEncode
  import opened HpackLockstep

  /** :path */
  const PATH: seq<byte> := [58, 112, 97, 116, 104]
  /** age */
  const AGE: seq<byte> := [97, 103, 101]
  /** authorization */
  const AUTHORIZATION: seq<byte> := [97, 117, 116, 104, 111, 114, 105, 122, 97, 116, 105, 111, 110]
  /** content-length */
  const CONTENT_LENGTH: seq<byte> := [99, 111, 110, 116, 101, 110, 116, 45, 108, 101, 110, 103, 116, 104]
  /** cookie */
  const COOKIE: seq<byte> := [99, 111, 111, 107, 105, 101]
  /** etag */
  const ETAG: seq<byte> := [101, 116, 97, 103]
  /** if-modified-since */
  const IF_MODIFIED_SINCE: seq<byte> := [105, 102, 45, 109, 111, 100, 105, 102, 105, 101, 100, 45, 115, 105, 110, 99, 101]
  /** if-none-match */
  const IF_NONE_MATCH: seq<byte> := [105, 102, 45, 110, 111, 110, 101, 45, 109, 97, 116, 99, 104]
  /** location */
  const LOCATION: seq<byte> := [108, 111, 99, 97, 116, 105, 111, 110]
  /** set-cookie */
  const SET_COOKIE: seq<byte> := [115, 101, 116, 45, 99, 111, 111, 107, 105, 101]

  /** Entry `i` of the static table is the first with the name. */
  ghost predicate FirstAt(s: StaticTable, name: seq<byte>, i: nat)
  {
    i < STATIC_LENGTH && s[i].name == name && forall j :: 0 <= j < i ==> s[j].name != name
  }

  /** The names that matter stand where `static_table` has them. */
  ghost predicate Standard(s: StaticTable)
  {
    && FirstAt(s, PATH, 3)
    && FirstAt(s, AGE, 20)
    && FirstAt(s, AUTHORIZATION, 22)
    && FirstAt(s, CONTENT_LENGTH, 27)
    && FirstAt(s, COOKIE, 31)
    && FirstAt(s, ETAG, 33)
    && FirstAt(s, IF_MODIFIED_SINCE, 39)
    && FirstAt(s, IF_NONE_MATCH, 40)
    && FirstAt(s, LOCATION, 45)
    && FirstAt(s, SET_COOKIE, 54)
  }

  /** Low-entropy secrets, and what the caller marked. */
  ghost predicate Secret(h: Header)
  {
    h.name == AUTHORIZATION || (h.name == COOKIE && |h.value| < 20) || h.noIndex
  }

  ghost predicate Changing(name: seq<byte>)
  {
    || name == PATH || name == AGE || name == CONTENT_LENGTH || name == ETAG || name == IF_MODIFIED_SINCE
    || name == IF_NONE_MATCH || name == LOCATION || name == SET_COOKIE
  }

  /** What changes from message to message, or takes more than three quarters of the table. */
  ghost predicate Volatile(h: Header, max: nat)
  {
    Changing(h.name) || 32 + |h.name| + |h.value| > max * 3 / 4
  }

  /** The field itself is in one of the tables, where the encoder looks. */
  ghost predicate Known(s: StaticTable, t: seq<Field>, h: Header)
  {
    FieldOf(h) in t || InFirstRun(s, FieldOf(h))
  }

  lemma FirstIs(s: StaticTable, name: seq<byte>, i: nat, n: seq<byte>)
    requires FirstAt(s, name, i)
    ensures FirstName(s, n, 0) == i <==> n == name
  {}

  lemma TokensAre(c: Consts, n: seq<byte>)
    requires Standard(c.fixed)
    ensures var k := StaticToken(c, n);
            && (k == TOKEN_AUTHORIZATION <==> n == AUTHORIZATION) && (k == TOKEN_COOKIE <==> n == COOKIE)
            && (Changing(n) <==> k in {TOKEN_PATH, TOKEN_AGE, TOKEN_CONTENT_LENGTH, TOKEN_ETAG, TOKEN_IF_MODIFIED_SINCE,
                                       TOKEN_IF_NONE_MATCH, TOKEN_LOCATION, TOKEN_SET_COOKIE})
  {
    hide FirstAt, FirstName, PATH, AGE, AUTHORIZATION, CONTENT_LENGTH, COOKIE, ETAG, IF_MODIFIED_SINCE,
      IF_NONE_MATCH, LOCATION, SET_COOKIE;
    FirstIs(c.fixed, PATH, 3, n);
    FirstIs(c.fixed, AGE, 20, n);
    FirstIs(c.fixed, AUTHORIZATION, 22, n);
    FirstIs(c.fixed, CONTENT_LENGTH, 27, n);
    FirstIs(c.fixed, COOKIE, 31, n);
    FirstIs(c.fixed, ETAG, 33, n);
    FirstIs(c.fixed, IF_MODIFIED_SINCE, 39, n);
    FirstIs(c.fixed, IF_NONE_MATCH, 40, n);
    FirstIs(c.fixed, LOCATION, 45, n);
    FirstIs(c.fixed, SET_COOKIE, 54, n);
  }

  /** The mode in terms of the names. */
  lemma ModeIs(c: Consts, max: nat, h: Header)
    requires Standard(c.fixed)
    ensures ModeOf(c, max, h) == if Secret(h) then NeverIndexing else if Volatile(h, max) then WithoutIndexing
                                 else WithIndexing
  {
    hide StaticToken, Standard, Changing, PATH, AGE, AUTHORIZATION, CONTENT_LENGTH, COOKIE, ETAG, IF_MODIFIED_SINCE,
      IF_NONE_MATCH, LOCATION, SET_COOKIE;
    TokensAre(c, h.name);
  }

  /** The ranges of first octets in section 6 of RFC 7541. */
  lemma FirstOctets(c: Consts, m: Match, mode: Mode, h: Header)
    ensures var bs := FieldBytes(c, m, mode, h);
            && |bs| > 0
            && (m.ExactMatch? ==> bs[0] >= 128)
            && (!m.ExactMatch? ==>
                  match mode
                  case WithIndexing => 64 <= bs[0] < 128
                  case WithoutIndexing => bs[0] < 16
                  case NeverIndexing => 16 <= bs[0] < 32)
  {
    hide PrefixInt.Encode, StringBytes, PrefixInt.High, Pow2;
    HighBits();
    Pow2Small();
    match m
    case ExactMatch(i) => FirstOctet(0x80, i + 1, 7);
    case NameMatch(i) => FirstOctet(FirstByte(mode), i + 1, NamePrefix(mode));
    case NoMatch =>
  }

  /** What `deflate_nv` writes and what it puts into the table, for every header and every table. */
  lemma Representation(c: Consts, t: seq<Field>, max: nat, h: Header)
    requires Standard(c.fixed)
    ensures var bs, t' := HeaderBytes(c, t, max, h), TableAfter(c, t, max, h);
            && |bs| > 0
            && (Secret(h) ==> 16 <= bs[0] < 32 && t' == t)
            && (!Secret(h) && Known(c.fixed, t, h) ==> bs[0] >= 128 && t' == t)
            && (!Secret(h) && !Known(c.fixed, t, h) && Volatile(h, max) ==> bs[0] < 16 && t' == t)
            && (!Secret(h) && !Known(c.fixed, t, h) && !Volatile(h, max) ==>
                  64 <= bs[0] < 128 && t' == Insert(t, FieldOf(h), max))
  {
    hide ModeOf, Search, FieldBytes, Insert, Secret, Volatile, Standard, InFirstRun;
    ModeIs(c, max, h);
    SearchComplete(c.fixed, t, FieldOf(h), Secret(h));
    FirstOctets(c, SearchFor(c, t, max, h), ModeOf(c, max, h), h);
  }

  /** An instance: authorization in an empty table is written as never indexed, with static index 23. */
  lemma AuthorizationIsNeverIndexed(c: Consts, max: nat, h: Header)
    requires Standard(c.fixed) && h.name == AUTHORIZATION
    ensures HeaderBytes(c, [], max, h) == [0x1f, 0x08] + StringBytes(c, h.value) && TableAfter(c, [], max, h) == []
  {
    hide ModeOf, StringBytes, RunField, PrefixInt.High;
    ModeIs(c, max, h);
    SearchComplete(c.fixed, [], FieldOf(h), true);
    assert SearchFor(c, [], max, h) == NameMatch(22);
    HighBits();
    Pow2Small();
    assert PrefixInt.Tail(8) == [8];
    assert PrefixInt.Encode(0x10, 23, 4) == [0x1f, 0x08];
  }

  /** The size updates a block begins with: none without a change; after one change the new maximum; after a
      reduction and a growth the smallest and the last. */
  lemma UpdatesAre(c: Consts, e: Encoder, low: nat, size: nat, hs: seq<Header>)
    requires e.Valid() && !e.notify && e.limit <= UINT32_MAX && low < size <= e.limit
    ensures var one := ResizeEncoder(e, size);
            var two := ResizeEncoder(ResizeEncoder(e, low), size);
            && BlockBytes(c, e, hs) == ListBytes(c, e.table, e.max, hs)
            && BlockBytes(c, one, hs) == PrefixInt.Encode(0x20, size, 5) + ListBytes(c, one.table, size, hs)
            && BlockBytes(c, two, hs) ==
               PrefixInt.Encode(0x20, low, 5) + PrefixInt.Encode(0x20, size, 5) + ListBytes(c, two.table, size, hs)
  {
    hide PrefixInt.Encode, ListBytes, Shrink, Size;
    assert [] + SizeUpdate(size) == SizeUpdate(size);
    assert [] + ListBytes(c, e.table, e.max, hs) == ListBytes(c, e.table, e.max, hs);
  }

  /** A string is written in whichever form is shorter, the plain one if neither is. */
  lemma StringIsShorter(c: Consts, s: seq<byte>)
    ensures var z, bs := HuffmanCodec.Encode(c.code, s), StringBytes(c, s);
            && |bs| > 0 && (bs[0] >= 128 <==> |z| < |s|)
            && bs[|bs| - Min(|z|, |s|)..] == if |z| < |s| then z else s
  {
    hide PrefixInt.Encode, HuffmanCodec.Encode, PrefixInt.High, Pow2;
    var z := HuffmanCodec.Encode(c.code, s);
    HighBits();
    Pow2Small();
    FirstOctet(0x80, |z|, 7);
    FirstOctet(0, |s|, 7);
  }
}
