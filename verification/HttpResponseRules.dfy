/** Responses as `nghttp2_http.c` wants them, stated on the whole list of header fields at once. */
module HttpResponseRules {
  import opened Bytes
  import opened HttpRules

  const ZERO: seq<byte> := [0x30]

  /** Three digits, and not 101. */
  predicate StatusValue(v: seq<byte>)
  {
    |v| == 3 && Number(v) && Decimal(v) != 101
  }

  predicate Informational(code: int)
  {
    100 <= code < 200
  }

  /** What a content-length may be under a status code; -1 stands for none. */
  predicate LengthAllowed(code: int, connect: bool, v: seq<byte>)
  {
    if code == 204 then v == ZERO
    else !Informational(code) && !(code == 200 && connect) && Number(v)
  }

  /** The status code of a list, -1 if it has none. */
  ghost function CodeOf(hs: seq<Field>): (code: int)
    ensures code >= -1 && (code >= 0 ==> Has(hs, Status))
  {
    if hs == [] then -1 else
    var pre, f := hs[..|hs| - 1], hs[|hs| - 1];
    assert hs == pre + [f];
    HasSnoc(pre, f, Status);
    if Is(f, Status) && StatusValue(f.value) then Decimal(f.value) else CodeOf(pre)
  }

  /** What a kept field has to satisfy by itself. */
  predicate ProperInResponse(f: Field)
  {
    && !f.token.Forbidden?
    && (!f.token.Status? ==> f.token.ContentLength? || f.token.Te? || !Pseudo(f))
    && (f.token.Te? ==> EqualsIgnoringCase(TRAILERS, f.value))
    && (f.token.Status? ==> !Blank(f.value) && StatusValue(f.value))
  }

  /** Each field is dropped or proper, no pseudo-header follows a regular field, :status and
      content-length occur at most once, and a content-length is one the status allows. */
  ghost predicate ConsistentResponse(hs: seq<Field>, connect: bool)
  {
    && (forall i :: 0 <= i < |hs| ==> Ignored(hs[i]) || (Kept(hs[i]) && ProperInResponse(hs[i])))
    && (forall i, j :: 0 <= i < j < |hs| && !Pseudo(hs[i]) ==> !Pseudo(hs[j]))
    && (forall i, j :: 0 <= i < j < |hs| ==> !(Is(hs[i], Status) && Is(hs[j], Status)))
    && (forall i, j :: 0 <= i < j < |hs| ==> !(Is(hs[i], ContentLength) && Is(hs[j], ContentLength)))
    && (forall i :: 0 <= i < |hs| && Is(hs[i], ContentLength) ==> LengthAllowed(CodeOf(hs), connect, hs[i].value))
  }

  ghost predicate FollowsInResponse(hs: seq<Field>, f: Field, connect: bool)
  {
    && (Ignored(f) || (Kept(f) && ProperInResponse(f)))
    && (Pseudo(f) ==> !HasRegular(hs))
    && (Is(f, Status) ==> !Has(hs, Status))
    && (Is(f, ContentLength) ==> !Has(hs, ContentLength) && LengthAllowed(CodeOf(hs), connect, f.value))
  }

  /** Tokens and names go together. */
  ghost predicate Named(f: Field)
  {
    (f.token.Status? ==> Pseudo(f)) && (f.token.ContentLength? || f.token.Te? ==> !Pseudo(f))
  }

  lemma CodeSnoc(hs: seq<Field>, f: Field)
    ensures CodeOf(hs + [f]) == if Is(f, Status) && StatusValue(f.value) then Decimal(f.value) else CodeOf(hs)
  {
    assert (hs + [f])[..|hs|] == hs;
  }

  lemma ResponseSnoc(hs: seq<Field>, f: Field, connect: bool)
    requires Named(f) && forall i :: 0 <= i < |hs| ==> Named(hs[i])
    ensures ConsistentResponse(hs + [f], connect) <==> ConsistentResponse(hs, connect) && FollowsInResponse(hs, f, connect)
  {
    hide ConsistentResponse, FollowsInResponse;
    if ConsistentResponse(hs, connect) && FollowsInResponse(hs, f, connect) { ResponseUp(hs, f, connect); }
    if ConsistentResponse(hs + [f], connect) { ResponseDown(hs, f, connect); }
  }

  lemma ResponseUp(hs: seq<Field>, f: Field, connect: bool)
    requires Named(f) && forall i :: 0 <= i < |hs| ==> Named(hs[i])
    requires ConsistentResponse(hs, connect) && FollowsInResponse(hs, f, connect)
    ensures ConsistentResponse(hs + [f], connect)
  {
    hide ProperInResponse, Ignored, Pseudo, LengthAllowed, CodeOf, Number, Decimal;
    var r := hs + [f];
    CodeSnoc(hs, f);
    assert forall i :: 0 <= i < |hs| ==> r[i] == hs[i];
    forall i | 0 <= i < |r| && Is(r[i], ContentLength) ensures LengthAllowed(CodeOf(r), connect, r[i].value) {
      var g := r[i];
      assert !Pseudo(g);
    }
  }

  lemma ResponseDown(hs: seq<Field>, f: Field, connect: bool)
    requires Named(f) && forall i :: 0 <= i < |hs| ==> Named(hs[i])
    requires ConsistentResponse(hs + [f], connect)
    ensures ConsistentResponse(hs, connect) && FollowsInResponse(hs, f, connect)
  {
    hide ProperInResponse, Ignored, Pseudo, LengthAllowed, CodeOf, Number, Decimal;
    var r := hs + [f];
    CodeSnoc(hs, f);
    assert forall i :: 0 <= i < |hs| ==> r[i] == hs[i];
    assert r[|hs|] == f;
    forall i | 0 <= i < |hs| && Is(hs[i], ContentLength) ensures LengthAllowed(CodeOf(hs), connect, hs[i].value) {
      var g := r[i];
      assert Is(g, ContentLength) && !Pseudo(g);
    }
  }

  lemma {:induction false} ResponsePrefix(hs: seq<Field>, k: nat, connect: bool)
    requires k <= |hs| && forall i :: 0 <= i < |hs| ==> Named(hs[i])
    ensures ConsistentResponse(hs, connect) ==> ConsistentResponse(hs[..k], connect)
    decreases |hs| - k
  {
    hide ConsistentResponse, FollowsInResponse;
    if k < |hs| {
      ResponsePrefix(hs, k + 1, connect);
      assert hs[..k + 1] == hs[..k] + [hs[k]];
      ResponseSnoc(hs[..k], hs[k], connect);
    } else {
      assert hs[..k] == hs;
    }
  }

  /** The length in force once a final response is complete: none counts if there is no body to come,
      and nothing is checked for a tunnel. */
  ghost predicate LengthInForce(hs: seq<Field>, head: bool, tunnel: bool, n: int)
  {
    var code := CodeOf(hs);
    if head || code == 304 || code == 204 then n == 0
    else if tunnel then n == -1
    else if Has(hs, ContentLength) then
      exists i :: 0 <= i < |hs| && Is(hs[i], ContentLength) && Number(hs[i].value) && n == Decimal(hs[i].value)
    else n == -1
  }
}
