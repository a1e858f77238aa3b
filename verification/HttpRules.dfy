/** Requests as section 8.1.2 of RFC 7540 and `nghttp2_http.c` want them, stated on the whole list of
    header fields at once. */
module HttpRules {
  import opened Bytes

  /** What the checks tell apart; `Forbidden` are the connection-specific names. */
  datatype Token = Authority | Method | Path | Scheme | Host | ContentLength | Te | Forbidden | Status | OtherName

  /** A header field with the verdicts of the character tables on its name and value. */
  datatype Field = Field(name: seq<byte>, token: Token, value: seq<byte>, nameOk: bool, valueOk: bool)

  predicate Pseudo(f: Field)
  {
    |f.name| > 0 && f.name[0] == 0x3a
  }

  predicate Upper(f: Field)
  {
    exists i :: 0 <= i < |f.name| && 0x41 <= f.name[i] <= 0x5a
  }

  // ---------------------------------------------------------------- values

  const INT64_MAX: int := 0x7fff_ffff_ffff_ffff

  predicate Digits(s: seq<byte>)
  {
    forall i :: 0 <= i < |s| ==> 0x30 <= s[i] <= 0x39
  }

  function Decimal(s: seq<byte>): nat
    requires Digits(s)
  {
    if s == [] then 0 else 10 * Decimal(s[..|s| - 1]) + (s[|s| - 1] as int - 0x30)
  }

  /** A non-empty decimal number up to INT64_MAX. */
  predicate Number(s: seq<byte>)
  {
    s != [] && Digits(s) && Decimal(s) <= INT64_MAX
  }

  /** Only spaces and tabs, or nothing. */
  predicate Blank(s: seq<byte>)
  {
    forall i :: 0 <= i < |s| ==> s[i] == 0x20 || s[i] == 0x09
  }

  function Lower(c: byte): byte
  {
    if 0x41 <= c <= 0x5a then c + 0x20 else c
  }

  predicate EqualsIgnoringCase(a: seq<byte>, b: seq<byte>)
  {
    |a| == |b| && forall i :: 0 <= i < |a| ==> Lower(a[i]) == Lower(b[i])
  }

  const CONNECT: seq<byte> := [0x43, 0x4f, 0x4e, 0x4e, 0x45, 0x43, 0x54]
  const HEAD: seq<byte> := [0x48, 0x45, 0x41, 0x44]
  const OPTIONS: seq<byte> := [0x4f, 0x50, 0x54, 0x49, 0x4f, 0x4e, 0x53]
  const HTTP: seq<byte> := [0x68, 0x74, 0x74, 0x70]
  const HTTPS: seq<byte> := [0x68, 0x74, 0x74, 0x70, 0x73]
  const TRAILERS: seq<byte> := [0x74, 0x72, 0x61, 0x69, 0x6c, 0x65, 0x72, 0x73]

  // ---------------------------------------------------------------- one field

  /** A regular field the tables object to is dropped, unless its name has upper case letters. */
  predicate Ignored(f: Field)
  {
    !Pseudo(f) && ((!f.nameOk && !Upper(f)) || (f.nameOk && !f.valueOk))
  }

  predicate Kept(f: Field)
  {
    f.nameOk && f.valueOk
  }

  predicate Single(t: Token)
  {
    t.Authority? || t.Method? || t.Path? || t.Scheme? || t.Host? || t.ContentLength?
  }

  /** What a kept field has to satisfy by itself. */
  predicate Proper(f: Field, odd: bool)
  {
    && !f.token.Forbidden? && !f.token.Status?
    && (f.token.OtherName? ==> !Pseudo(f))
    && (f.token.Te? ==> EqualsIgnoringCase(TRAILERS, f.value))
    && (f.token.ContentLength? ==> Number(f.value))
    && (Single(f.token) && !f.token.ContentLength? ==> !Blank(f.value))
    && (f.token.Method? && f.value == CONNECT ==> odd)
  }

  // ---------------------------------------------------------------- whole lists

  predicate Is(f: Field, t: Token)
  {
    Kept(f) && f.token == t
  }

  ghost predicate Has(hs: seq<Field>, t: Token)
  {
    exists i :: 0 <= i < |hs| && Is(hs[i], t)
  }

  ghost predicate HasValue(hs: seq<Field>, t: Token, p: seq<byte> -> bool)
  {
    exists i :: 0 <= i < |hs| && Is(hs[i], t) && p(hs[i].value)
  }

  predicate IsConnect(v: seq<byte>) { v == CONNECT }
  predicate IsHead(v: seq<byte>) { v == HEAD }
  predicate IsOptions(v: seq<byte>) { v == OPTIONS }
  predicate IsHttp(v: seq<byte>) { EqualsIgnoringCase(HTTP, v) || EqualsIgnoringCase(HTTPS, v) }
  predicate FromRoot(v: seq<byte>) { v != [] && v[0] == 0x2f }
  predicate Asterisk(v: seq<byte>) { v == [0x2a] }

  /** The list up to here may go on: each field is dropped or proper, no pseudo-header follows a
      regular field, nothing that may occur once occurs twice, and CONNECT comes without :path and
      :scheme. */
  ghost predicate Consistent(hs: seq<Field>, odd: bool)
  {
    && (forall i :: 0 <= i < |hs| ==> Ignored(hs[i]) || (Kept(hs[i]) && Proper(hs[i], odd)))
    && (forall i, j :: 0 <= i < j < |hs| && !Pseudo(hs[i]) ==> !Pseudo(hs[j]))
    && (forall i, j :: 0 <= i < j < |hs| && Kept(hs[i]) && Kept(hs[j]) && Single(hs[i].token) ==>
          hs[i].token != hs[j].token)
    && (HasValue(hs, Method, IsConnect) ==> !Has(hs, Path) && !Has(hs, Scheme))
  }

  /** A complete request. */
  ghost predicate Complete(hs: seq<Field>)
  {
    if HasValue(hs, Method, IsConnect) then Has(hs, Authority)
    else
      && Has(hs, Method) && Has(hs, Path) && Has(hs, Scheme) && (Has(hs, Authority) || Has(hs, Host))
      && (HasValue(hs, Scheme, IsHttp) ==>
            HasValue(hs, Path, FromRoot) || (HasValue(hs, Method, IsOptions) && HasValue(hs, Path, Asterisk)))
  }

  /** One more field. */
  lemma HasSnoc(hs: seq<Field>, f: Field, t: Token)
    ensures Has(hs + [f], t) <==> Has(hs, t) || Is(f, t)
  {
    var r := hs + [f];
    if Has(hs, t) { var i :| 0 <= i < |hs| && Is(hs[i], t); assert r[i] == hs[i]; }
    if Is(f, t) { assert r[|hs|] == f; }
  }

  lemma HasValueSnoc(hs: seq<Field>, f: Field, t: Token, p: seq<byte> -> bool)
    ensures HasValue(hs + [f], t, p) <==> HasValue(hs, t, p) || (Is(f, t) && p(f.value))
  {
    var r := hs + [f];
    if HasValue(hs, t, p) { var i :| 0 <= i < |hs| && Is(hs[i], t) && p(hs[i].value); assert r[i] == hs[i]; }
    if Is(f, t) && p(f.value) { assert r[|hs|] == f; }
  }

  /** Some regular field came before. */
  ghost predicate HasRegular(hs: seq<Field>)
  {
    exists i :: 0 <= i < |hs| && !Pseudo(hs[i])
  }

  /** What the next field has to satisfy. */
  ghost predicate Follows(hs: seq<Field>, f: Field, odd: bool)
  {
    && (Ignored(f) || (Kept(f) && Proper(f, odd)))
    && (Pseudo(f) ==> !HasRegular(hs))
    && (Kept(f) && Single(f.token) ==> !Has(hs, f.token))
    && (Is(f, Method) && IsConnect(f.value) ==> !Has(hs, Path) && !Has(hs, Scheme))
    && (Is(f, Path) || Is(f, Scheme) ==> !HasValue(hs, Method, IsConnect))
  }

  lemma ConsistentSnoc(hs: seq<Field>, f: Field, odd: bool)
    ensures Consistent(hs + [f], odd) <==> Consistent(hs, odd) && Follows(hs, f, odd)
  {
    var r := hs + [f];
    assert forall i :: 0 <= i < |hs| ==> r[i] == hs[i];
    assert r[|hs|] == f;
    HasSnoc(hs, f, Path);
    HasSnoc(hs, f, Scheme);
    HasValueSnoc(hs, f, Method, IsConnect);
    if Consistent(hs, odd) && Follows(hs, f, odd) {
      ConsistentUp(hs, f, odd);
    }
    if Consistent(r, odd) {
      ConsistentDown(hs, f, odd);
    }
  }

  lemma ConsistentUp(hs: seq<Field>, f: Field, odd: bool)
    requires Consistent(hs, odd) && Follows(hs, f, odd)
    ensures Consistent(hs + [f], odd)
  {
    hide Proper, Ignored, Pseudo;
    var r := hs + [f];
    HasSnoc(hs, f, Path);
    HasSnoc(hs, f, Scheme);
    HasValueSnoc(hs, f, Method, IsConnect);
    forall i, j | 0 <= i < j < |r| && Kept(r[i]) && Kept(r[j]) && Single(r[i].token) ensures r[i].token != r[j].token {
      assert j == |hs| && r[i].token == f.token ==> Is(hs[i], f.token);
    }
  }

  lemma ConsistentDown(hs: seq<Field>, f: Field, odd: bool)
    requires Consistent(hs + [f], odd)
    ensures Consistent(hs, odd) && Follows(hs, f, odd)
  {
    hide Proper, Ignored, Pseudo;
    var r := hs + [f];
    assert forall i :: 0 <= i < |hs| ==> r[i] == hs[i];
    assert r[|hs|] == f;
    HasSnoc(hs, f, Path);
    HasSnoc(hs, f, Scheme);
    HasValueSnoc(hs, f, Method, IsConnect);
  }
}
