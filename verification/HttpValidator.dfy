/** The checker of `nghttp2_http.c`, field by field and chunk by chunk. */
module HttpValidator {
  import opened Bytes
  import opened HttpRules
  import opened HttpResponseRules

  /** The bits of `http_flags`, but NGHTTP2_HTTP_FLAG_PSEUDO_HEADER_DISALLOWED. */
  datatype Flags = Flags(authority: bool, path: bool, verb: bool, scheme: bool, host: bool,
                         connect: bool, head: bool, options: bool, pathRegular: bool, pathAsterisk: bool,
                         schemeHttp: bool, expectFinal: bool)

  const NONE := Flags(false, false, false, false, false, false, false, false, false, false, false, false)

  /** Accepted, dropped (NGHTTP2_ERR_IGN_HTTP_HEADER), or an error (NGHTTP2_ERR_HTTP_HEADER). */
  datatype Verdict = Accepted | Dropped | Rejected

  // ---------------------------------------------------------------- loops over one value

  /** `parse_uint`: exact up to INT64_MAX. */
  method ParseUint(s: seq<byte>) returns (n: int)
    ensures n == if Number(s) then Decimal(s) else -1
  {
    if |s| == 0 {
      return -1;
    }
    n := 0;
    var i := 0;
    while i < |s|
      invariant 0 <= i <= |s| && Digits(s[..i]) && n == Decimal(s[..i]) <= INT64_MAX
    {
      assert s[..i + 1] == s[..i] + [s[i]];
      if 0x30 <= s[i] <= 0x39 {
        DecimalSnoc(s[..i], s[i]);
        if n > INT64_MAX / 10 {
          DecimalGrows(s, i + 1);
          return -1;
        }
        n := n * 10;
        if n > INT64_MAX - (s[i] as int - 0x30) {
          DecimalGrows(s, i + 1);
          return -1;
        }
        n := n + (s[i] as int - 0x30);
        i := i + 1;
      } else {
        return -1;
      }
    }
    assert s[..i] == s;
  }

  lemma DecimalSnoc(s: seq<byte>, c: byte)
    requires Digits(s) && 0x30 <= c <= 0x39
    ensures Digits(s + [c]) && Decimal(s + [c]) == 10 * Decimal(s) + (c as int - 0x30)
  {
    assert (s + [c])[..|s|] == s;
  }

  /** A number is no less than its leading part. */
  lemma {:induction false} DecimalGrows(s: seq<byte>, k: nat)
    requires k <= |s|
    ensures Digits(s) ==> Digits(s[..k]) && Decimal(s[..k]) <= Decimal(s)
    decreases |s| - k
  {
    if k < |s| {
      DecimalGrows(s, k + 1);
      assert s[..k + 1][..k] == s[..k];
    } else {
      assert s[..k] == s;
    }
  }

  /** `lws`. */
  method Lws(s: seq<byte>) returns (blank: bool)
    ensures blank == Blank(s)
  {
    for i := 0 to |s|
      invariant Blank(s[..i])
    {
      if s[i] != 0x20 && s[i] != 0x09 {
        return false;
      }
      assert s[..i + 1] == s[..i] + [s[i]];
    }
    assert s[..|s|] == s;
    return true;
  }

  // ---------------------------------------------------------------- requests

  /** The flags once `f` is taken, in terms of the list: each says that some field had a property. */
  function Updated(fl: Flags, f: Field): Flags
  {
    Flags(fl.authority || Is(f, Authority), fl.path || Is(f, Path), fl.verb || Is(f, Method),
          fl.scheme || Is(f, Scheme), fl.host || Is(f, Host),
          fl.connect || (Is(f, Method) && IsConnect(f.value)), fl.head || (Is(f, Method) && IsHead(f.value)),
          fl.options || (Is(f, Method) && IsOptions(f.value)), fl.pathRegular || (Is(f, Path) && FromRoot(f.value)),
          fl.pathAsterisk || (Is(f, Path) && Asterisk(f.value)), fl.schemeHttp || (Is(f, Scheme) && IsHttp(f.value)),
          fl.expectFinal)
  }

  function WithMethod(fl: Flags, v: seq<byte>): Flags
  {
    fl.(verb := true, connect := fl.connect || IsConnect(v), head := fl.head || IsHead(v), options := fl.options || IsOptions(v))
  }

  function WithPath(fl: Flags, v: seq<byte>): Flags
  {
    fl.(path := true, pathRegular := fl.pathRegular || FromRoot(v), pathAsterisk := fl.pathAsterisk || Asterisk(v))
  }

  function WithScheme(fl: Flags, v: seq<byte>): Flags
  {
    fl.(scheme := true, schemeHttp := fl.schemeHttp || IsHttp(v))
  }

  lemma PathKinds(v: seq<byte>)
    requires !Blank(v)
    ensures v != [] && (FromRoot(v) <==> v[0] == 0x2f) && (Asterisk(v) <==> |v| == 1 && v[0] == 0x2a)
  {
    assert |v| == 1 ==> v == [v[0]];
  }

  lemma MethodLengths(v: seq<byte>)
    ensures IsHead(v) ==> |v| == 4
    ensures IsConnect(v) || IsOptions(v) ==> |v| == 7
    ensures !(IsConnect(v) && IsOptions(v))
  {
    assert CONNECT[0] != OPTIONS[0];
  }

  /** Whether the flags allow `f`. */
  predicate Allows(fl: Flags, contentLength: int, f: Field, odd: bool)
  {
    && (Ignored(f) || (Kept(f) && Proper(f, odd)))
    && (Is(f, Authority) ==> !fl.authority) && (Is(f, Method) ==> !fl.verb) && (Is(f, Path) ==> !fl.path)
    && (Is(f, Scheme) ==> !fl.scheme) && (Is(f, Host) ==> !fl.host) && (Is(f, ContentLength) ==> contentLength == -1)
    && (Is(f, Method) && IsConnect(f.value) ==> !fl.path && !fl.scheme)
    && (Is(f, Path) || Is(f, Scheme) ==> !fl.connect)
  }

  class HttpStream {
    const streamId: nat
    var flags: Flags
    var disallowed: bool
    var contentLength: int
    var received: int
    /** NGHTTP2_HTTP_FLAG__STATUS and the code. */
    var status: bool
    var statusCode: int

    constructor (streamId: nat)
      ensures flags == NONE && !disallowed && contentLength == -1 && received == 0 && this.streamId == streamId
      ensures !status && statusCode == -1
    {
      this.streamId, flags, disallowed, contentLength, received := streamId, NONE, false, -1, 0;
      status, statusCode := false, -1;
    }

    /** `check_pseudo_header` with the bit given by its present value. */
    method CheckPseudoHeader(seen: bool, value: seq<byte>) returns (ok: bool)
      ensures ok <==> !seen && !Blank(value)
    {
      if seen {
        return false;
      }
      var blank := Lws(value);
      return !blank;
    }

    /** The case of :method. */
    method OnMethod(v: seq<byte>) returns (ok: bool)
      modifies `flags
      ensures ok <==> !old(flags.verb) && !Blank(v)
                      && (IsConnect(v) ==> streamId % 2 == 1 && !old(flags.path) && !old(flags.scheme))
      ensures ok ==> flags == WithMethod(old(flags), v)
    {
      hide IsHead, IsConnect, IsOptions, Blank;
      MethodLengths(v);
      ok := CheckPseudoHeader(flags.verb, v);
      if !ok {
        return;
      }
      var fl := flags.(verb := true);
      flags := fl;
      if |v| == 4 {
        if IsHead(v) { flags := fl.(head := true); }
      } else if |v| == 7 {
        if IsConnect(v) {
          if streamId % 2 == 0 {
            return false;
          }
          flags := fl.(connect := true);
          return !(fl.path || fl.scheme);
        } else if IsOptions(v) {
          flags := fl.(options := true);
        }
      }
    }

    /** The case of :path. */
    method OnPath(v: seq<byte>) returns (ok: bool)
      modifies `flags
      ensures ok <==> !old(flags.connect) && !old(flags.path) && !Blank(v)
      ensures ok ==> flags == WithPath(old(flags), v)
    {
      hide FromRoot, Asterisk, Blank;
      if flags.connect {
        return false;
      }
      ok := CheckPseudoHeader(flags.path, v);
      if !ok {
        return;
      }
      PathKinds(v);
      if v[0] == 0x2f {
        flags := flags.(path := true, pathRegular := true);
      } else if |v| == 1 && v[0] == 0x2a {
        flags := flags.(path := true, pathAsterisk := true);
      } else {
        flags := flags.(path := true);
      }
    }

    /** The case of :scheme. */
    method OnScheme(v: seq<byte>) returns (ok: bool)
      modifies `flags
      ensures ok <==> !old(flags.connect) && !old(flags.scheme) && !Blank(v)
      ensures ok ==> flags == WithScheme(old(flags), v)
    {
      hide IsHttp, Blank;
      if flags.connect {
        return false;
      }
      ok := CheckPseudoHeader(flags.scheme, v);
      if !ok {
        return;
      }
      if IsHttp(v) {
        flags := flags.(scheme := true, schemeHttp := true);
      } else {
        flags := flags.(scheme := true);
      }
    }

    /** The case of content-length. */
    method OnContentLength(f: Field) returns (ok: bool)
      requires Is(f, ContentLength) && contentLength >= -1
      modifies `contentLength
      ensures ok <==> old(contentLength) == -1 && Number(f.value)
      ensures ok ==> contentLength == Decimal(f.value)
    {
      if contentLength != -1 {
        return false;
      }
      contentLength := ParseUint(f.value);
      return contentLength != -1;
    }

    /** The switch of `http_request_on_header`, without the flag it ends with. */
    method OnToken(f: Field) returns (ok: bool)
      requires Kept(f) && contentLength >= -1
      modifies `flags, `contentLength
      ensures ok <==> Allows(old(flags), old(contentLength), f, streamId % 2 == 1)
      ensures ok ==> flags == Taken(old(flags), f)
      ensures ok ==> contentLength == if Is(f, ContentLength) && Number(f.value) then Decimal(f.value) else old(contentLength)
    {
      hide Blank, IsConnect, IsHead, IsOptions, IsHttp, FromRoot, Asterisk, Number, EqualsIgnoringCase, Pseudo,
        Ignored, Decimal, Upper;
      KeptNotIgnored(f);
      AllowsIs(flags, contentLength, f, streamId % 2 == 1);
      if f.token.Method? {
        ok := OnMethod(f.value);
      } else if f.token.Path? {
        ok := OnPath(f.value);
      } else if f.token.Scheme? {
        ok := OnScheme(f.value);
      } else if f.token.Authority? {
        ok := CheckPseudoHeader(flags.authority, f.value);
        if ok { flags := flags.(authority := true); }
      } else if f.token.Host? {
        ok := CheckPseudoHeader(flags.host, f.value);
        if ok { flags := flags.(host := true); }
      } else if f.token.ContentLength? {
        ok := OnContentLength(f);
      } else if f.token.Forbidden? {
        ok := false;
      } else if f.token.Te? {
        ok := EqualsIgnoringCase(TRAILERS, f.value);
      } else {
        ok := !Pseudo(f) && !f.token.Status?;
      }
    }
    /** `http_request_on_header`. */
    method RequestOnHeader(f: Field, trailer: bool) returns (ok: bool)
      requires Kept(f) && contentLength >= -1
      modifies `flags, `contentLength, `disallowed
      ensures ok <==> Allows(old(flags), old(contentLength), f, streamId % 2 == 1)
                      && (Pseudo(f) ==> !trailer && !old(disallowed))
      ensures ok ==> flags == Updated(old(flags), f) && disallowed == (old(disallowed) || !Pseudo(f))
      ensures ok ==> contentLength == NextLength(old(contentLength), f)
    {
      hide Allows, Taken, Updated, Pseudo, Number, Decimal;
      TakenIs(flags, f);
      if Pseudo(f) && (trailer || disallowed) {
        return false;
      }
      ok := OnToken(f);
      if ok && !Pseudo(f) {
        disallowed := true;
      }
    }

    /** `nghttp2_http_on_header` for a request. */
    method OnHeader(f: Field, trailer: bool) returns (v: Verdict)
      requires contentLength >= -1
      modifies `flags, `contentLength, `disallowed
      ensures v != Rejected <==> Allows(old(flags), old(contentLength), f, streamId % 2 == 1)
                                 && (Pseudo(f) ==> !trailer && !old(disallowed))
      ensures v == Dropped ==> Ignored(f)
      ensures v == Accepted ==> Kept(f)
      ensures v != Rejected ==> flags == Updated(old(flags), f) && disallowed == (old(disallowed) || !Pseudo(f))
      ensures v != Rejected ==> contentLength == NextLength(old(contentLength), f) && contentLength >= -1
    {
      hide Updated, Pseudo, Number, Decimal, Upper, Proper, IsConnect;
      if !f.nameOk || !f.valueOk {
        DroppedIs(flags, f);
        if Pseudo(f) || (!f.nameOk && Upper(f)) {
          return Rejected;
        }
        disallowed := true;
        return Dropped;
      }
      KeptNotIgnored(f);
      var ok := RequestOnHeader(f, trailer);
      return if ok then Accepted else Rejected;
    }

    /** `nghttp2_http_on_request_headers`. */
    method OnRequestHeaders(pushPromise: bool) returns (ok: bool)
      modifies `flags, `contentLength, `disallowed
      ensures ok <==> Ends(old(flags))
      ensures ok && !pushPromise ==> flags == old(flags) && disallowed == old(disallowed)
      ensures ok && pushPromise ==> flags == NONE.(connect := old(flags.connect), head := old(flags.head), options := old(flags.options)) && !disallowed
      ensures ok ==> contentLength == if old(flags.connect) || pushPromise then -1 else old(contentLength)
    {
      if flags.connect {
        if !flags.authority {
          return false;
        }
        contentLength := -1;
      } else {
        if !(flags.verb && flags.path && flags.scheme) || !(flags.authority || flags.host) {
          return false;
        }
        if !(!flags.schemeHttp || flags.pathRegular || (flags.options && flags.pathAsterisk)) {
          return false;
        }
      }
      if pushPromise {
        flags := NONE.(connect := flags.connect, head := flags.head, options := flags.options);
        disallowed := false;
        contentLength := -1;
      }
      return true;
    }

    /** The case of :status. */
    method OnStatus(v: seq<byte>) returns (ok: bool)
      modifies `status, `statusCode
      ensures ok <==> !old(status) && !Blank(v) && StatusValue(v)
      ensures ok ==> status && Number(v) && statusCode == Decimal(v)
    {
      hide Blank, Number, Decimal;
      ok := CheckPseudoHeader(status, v);
      if !ok {
        return;
      }
      status := true;
      if |v| != 3 {
        return false;
      }
      statusCode := ParseUint(v);
      return !(statusCode == -1 || statusCode == 101);
    }

    /** The case of content-length in a response; `removed` is NGHTTP2_ERR_REMOVE_HTTP_HEADER. */
    method OnResponseLength(v: seq<byte>) returns (ok: bool, removed: bool)
      requires contentLength >= -1 && statusCode >= -1
      modifies `contentLength
      ensures ok <==> old(contentLength) == -1 && LengthAllowed(statusCode, flags.connect, v)
      ensures removed <==> ok && statusCode == 204
      ensures ok ==> Number(v) && contentLength == Decimal(v)
    {
      hide Number, Decimal;
      if statusCode == 204 {
        ZeroNumber();
        if contentLength != -1 || v != ZERO {
          return false, false;
        }
        contentLength := 0;
        return true, true;
      }
      if 100 <= statusCode < 200 || (statusCode == 200 && flags.connect) || contentLength != -1 {
        return false, false;
      }
      contentLength := ParseUint(v);
      return contentLength != -1, false;
    }

    /** `http_response_on_header`. */
    method ResponseOnHeader(f: Field, trailer: bool) returns (ok: bool)
      requires Kept(f) && contentLength >= -1 && statusCode >= -1
      modifies `contentLength, `disallowed, `status, `statusCode
      ensures ok <==> ResponseAllows(old(status), old(statusCode), old(contentLength), flags.connect, f)
                      && (Pseudo(f) ==> !trailer && !old(disallowed))
      ensures ok ==> status == (old(status) || Is(f, Status))
      ensures ok ==> statusCode == if Is(f, Status) && Number(f.value) then Decimal(f.value) else old(statusCode)
      ensures ok ==> contentLength == NextLength(old(contentLength), f)
      ensures ok ==> disallowed == (old(disallowed) || (!Pseudo(f) && !(Is(f, ContentLength) && old(statusCode) == 204)))
    {
      hide Pseudo, Blank, Number, Decimal, EqualsIgnoringCase, LengthAllowed, StatusValue;
      ok := true;
      var removed := false;
      if Pseudo(f) && (trailer || disallowed) {
        return false;
      }
      if f.token.Status? {
        ok := OnStatus(f.value);
      } else if f.token.ContentLength? {
        ok, removed := OnResponseLength(f.value);
      } else if f.token.Forbidden? {
        ok := false;
      } else if f.token.Te? {
        ok := EqualsIgnoringCase(TRAILERS, f.value);
      } else {
        ok := !Pseudo(f);
      }
      if ok && !removed && !Pseudo(f) {
        disallowed := true;
      }
    }

    /** `nghttp2_http_on_header` for a response. */
    method OnHeaderOfResponse(f: Field, trailer: bool) returns (v: Verdict)
      requires contentLength >= -1 && statusCode >= -1
      modifies `contentLength, `disallowed, `status, `statusCode
      ensures v != Rejected <==>
              (Ignored(f) || (Kept(f) && ResponseAllows(old(status), old(statusCode), old(contentLength), flags.connect, f)))
              && (Pseudo(f) ==> !trailer && !old(disallowed))
      ensures v != Rejected ==> status == (old(status) || Is(f, Status)) && contentLength == NextLength(old(contentLength), f)
      ensures v != Rejected ==> statusCode == if Is(f, Status) && Number(f.value) then Decimal(f.value) else old(statusCode)
      ensures v != Rejected ==>
                disallowed == (old(disallowed) || (!Pseudo(f) && !(Is(f, ContentLength) && old(statusCode) == 204)))
    {
      hide Pseudo, Number, Decimal, Upper, ResponseAllows;
      if !f.nameOk || !f.valueOk {
        if Pseudo(f) || (!f.nameOk && Upper(f)) {
          return Rejected;
        }
        disallowed := true;
        return Dropped;
      }
      KeptNotIgnored(f);
      var ok := ResponseOnHeader(f, trailer);
      return if ok then Accepted else Rejected;
    }

    /** `nghttp2_http_on_response_headers`; `upgrade` is NGHTTP2_HTTP_FLAG_METH_UPGRADE_WORKAROUND. */
    method OnResponseHeaders(upgrade: bool) returns (ok: bool)
      modifies `flags, `contentLength, `disallowed, `status, `statusCode
      ensures ok <==> old(status)
      ensures ok && Informational(old(statusCode)) ==>
                contentLength == -1 && statusCode == -1 && !status && !disallowed && flags.expectFinal
      ensures ok && !Informational(old(statusCode)) ==> !flags.expectFinal && statusCode == old(statusCode)
      ensures ok && !Informational(old(statusCode)) ==>
                contentLength == if old(flags.head) || old(statusCode) == 304 || old(statusCode) == 204 then 0
                                 else if old(flags.connect) || upgrade then -1 else old(contentLength)
      ensures ok ==> flags.connect == old(flags.connect) && flags.head == old(flags.head)
    {
      if !status {
        return false;
      }
      if 100 <= statusCode < 200 {
        flags := NONE.(connect := flags.connect, head := flags.head, options := flags.options, expectFinal := true);
        disallowed, status := false, false;
        contentLength, statusCode := -1, -1;
        return true;
      }
      flags := flags.(expectFinal := false);
      if flags.head || statusCode == 304 || statusCode == 204 {
        contentLength := 0;
      } else if flags.connect || upgrade {
        contentLength := -1;
      }
      return true;
    }

    /** `nghttp2_http_on_data_chunk`. */
    method OnDataChunk(n: nat) returns (ok: bool)
      modifies `received
      ensures received == old(received) + n
      ensures ok <==> !flags.expectFinal && (contentLength == -1 || received <= contentLength)
    {
      received := received + n;
      return !(flags.expectFinal || (contentLength != -1 && received > contentLength));
    }

    /** `nghttp2_http_on_remote_end_stream`. */
    method OnRemoteEndStream() returns (ok: bool)
      ensures ok <==> !flags.expectFinal && (contentLength == -1 || contentLength == received)
    {
      return !flags.expectFinal && !(contentLength != -1 && contentLength != received);
    }
  }

  lemma KeptNotIgnored(f: Field)
    requires Kept(f)
    ensures !Ignored(f)
  {}

  /** The flags after the switch. */
  function Taken(fl: Flags, f: Field): Flags
  {
    if f.token.Method? then WithMethod(fl, f.value)
    else if f.token.Path? then WithPath(fl, f.value)
    else if f.token.Scheme? then WithScheme(fl, f.value)
    else if f.token.Authority? then fl.(authority := true)
    else if f.token.Host? then fl.(host := true)
    else fl
  }

  /** `Allows` for a kept field, by token. */
  lemma AllowsIs(fl: Flags, n: int, f: Field, odd: bool)
    requires Kept(f)
    ensures Allows(fl, n, f, odd) <==>
            if f.token.Method? then !fl.verb && !Blank(f.value) && (IsConnect(f.value) ==> odd && !fl.path && !fl.scheme)
            else if f.token.Path? then !fl.connect && !fl.path && !Blank(f.value)
            else if f.token.Scheme? then !fl.connect && !fl.scheme && !Blank(f.value)
            else if f.token.Authority? then !fl.authority && !Blank(f.value)
            else if f.token.Host? then !fl.host && !Blank(f.value)
            else if f.token.ContentLength? then n == -1 && Number(f.value)
            else if f.token.Forbidden? then false
            else if f.token.Te? then EqualsIgnoringCase(TRAILERS, f.value)
            else !Pseudo(f) && !f.token.Status?
  {
    hide Blank, IsHead, IsOptions, IsHttp, FromRoot, Asterisk, Number, EqualsIgnoringCase, Pseudo, Upper;
    KeptNotIgnored(f);
  }

  lemma Tokens(f: Field)
    requires Kept(f)
    ensures Is(f, Authority) == f.token.Authority? && Is(f, Method) == f.token.Method? && Is(f, Path) == f.token.Path?
    ensures Is(f, Scheme) == f.token.Scheme? && Is(f, Host) == f.token.Host?
  {}

  lemma TakenMethod(fl: Flags, f: Field)
    requires Kept(f) && f.token.Method?
    ensures Updated(fl, f) == Taken(fl, f)
  {
    hide Pseudo, IsConnect, IsHead, IsOptions, IsHttp, FromRoot, Asterisk, Is, Kept;
    Tokens(f);
  }

  lemma TakenPath(fl: Flags, f: Field)
    requires Kept(f) && f.token.Path?
    ensures Updated(fl, f) == Taken(fl, f)
  {
    hide Pseudo, IsConnect, IsHead, IsOptions, IsHttp, FromRoot, Asterisk, Is, Kept;
    Tokens(f);
  }

  lemma TakenScheme(fl: Flags, f: Field)
    requires Kept(f) && f.token.Scheme?
    ensures Updated(fl, f) == Taken(fl, f)
  {
    hide Pseudo, IsConnect, IsHead, IsOptions, IsHttp, FromRoot, Asterisk, Is, Kept;
    Tokens(f);
  }

  lemma TakenAuthority(fl: Flags, f: Field)
    requires Kept(f) && f.token.Authority?
    ensures Updated(fl, f) == Taken(fl, f)
  {
    hide Pseudo, IsConnect, IsHead, IsOptions, IsHttp, FromRoot, Asterisk, Is, Kept;
    Tokens(f);
  }

  lemma TakenHost(fl: Flags, f: Field)
    requires Kept(f) && f.token.Host?
    ensures Updated(fl, f) == Taken(fl, f)
  {
    hide Pseudo, IsConnect, IsHead, IsOptions, IsHttp, FromRoot, Asterisk, Is, Kept;
    Tokens(f);
  }

  lemma TakenOther(fl: Flags, f: Field)
    requires Kept(f) && !f.token.Method? && !f.token.Path? && !f.token.Scheme? && !f.token.Authority? && !f.token.Host?
    ensures Updated(fl, f) == Taken(fl, f)
  {
    hide Pseudo, IsConnect, IsHead, IsOptions, IsHttp, FromRoot, Asterisk, Is, Kept;
    Tokens(f);
  }

  lemma TakenIs(fl: Flags, f: Field)
    requires Kept(f)
    ensures Updated(fl, f) == Taken(fl, f)
  {
    hide Pseudo, Updated, WithMethod, WithPath, WithScheme, Taken;
    if f.token.Method? { TakenMethod(fl, f); }
    else if f.token.Path? { TakenPath(fl, f); }
    else if f.token.Scheme? { TakenScheme(fl, f); }
    else if f.token.Authority? { TakenAuthority(fl, f); }
    else if f.token.Host? { TakenHost(fl, f); }
    else { TakenOther(fl, f); }
  }

  lemma DroppedIs(fl: Flags, f: Field)
    requires !Kept(f)
    ensures Updated(fl, f) == fl
  {
    hide Pseudo, IsConnect, IsHead, IsOptions, IsHttp, FromRoot, Asterisk, Is;
    assert !Is(f, Authority) && !Is(f, Method) && !Is(f, Path) && !Is(f, Scheme) && !Is(f, Host) by { NotIs(f); }
  }

  lemma NotIs(f: Field)
    requires !Kept(f)
    ensures forall t :: !Is(f, t)
  {}

  /** The end of a request's header list as the flags tell it. */
  predicate Ends(fl: Flags)
  {
    if fl.connect then fl.authority
    else
      && fl.verb && fl.path && fl.scheme && (fl.authority || fl.host)
      && (fl.schemeHttp ==> fl.pathRegular || (fl.options && fl.pathAsterisk))
  }

  // ---------------------------------------------------------------- the flags and the list

  /** The flags say of the list what their names say. */
  ghost predicate Represents(fl: Flags, d: bool, n: int, hs: seq<Field>)
  {
    && RepresentsTokens(fl, hs) && RepresentsValues(fl, hs)
    && d == HasRegular(hs) && n >= -1 && (n == -1 <==> !Has(hs, ContentLength))
    && (n >= 0 ==> exists i :: 0 <= i < |hs| && Is(hs[i], ContentLength) && Number(hs[i].value) && Decimal(hs[i].value) == n)
  }

  ghost predicate RepresentsTokens(fl: Flags, hs: seq<Field>)
  {
    && fl.authority == Has(hs, Authority) && fl.path == Has(hs, Path) && fl.verb == Has(hs, Method)
    && fl.scheme == Has(hs, Scheme) && fl.host == Has(hs, Host)
  }

  ghost predicate RepresentsValues(fl: Flags, hs: seq<Field>)
  {
    && fl.connect == HasValue(hs, Method, IsConnect) && fl.head == HasValue(hs, Method, IsHead)
    && fl.options == HasValue(hs, Method, IsOptions) && fl.pathRegular == HasValue(hs, Path, FromRoot)
    && fl.pathAsterisk == HasValue(hs, Path, Asterisk) && fl.schemeHttp == HasValue(hs, Scheme, IsHttp)
  }

  lemma NextTokens(fl: Flags, hs: seq<Field>, f: Field)
    requires RepresentsTokens(fl, hs)
    ensures RepresentsTokens(Updated(fl, f), hs + [f])
  {
    hide Is, Has, Pseudo, IsConnect, IsHead, IsOptions, IsHttp, FromRoot, Asterisk;
    HasSnoc(hs, f, Authority);
    HasSnoc(hs, f, Path);
    HasSnoc(hs, f, Method);
    HasSnoc(hs, f, Scheme);
    HasSnoc(hs, f, Host);
  }

  lemma NextValues(fl: Flags, hs: seq<Field>, f: Field)
    requires RepresentsValues(fl, hs)
    ensures RepresentsValues(Updated(fl, f), hs + [f])
  {
    hide Is, HasValue, Pseudo, IsConnect, IsHead, IsOptions, IsHttp, FromRoot, Asterisk;
    HasValueSnoc(hs, f, Method, IsConnect);
    HasValueSnoc(hs, f, Method, IsHead);
    HasValueSnoc(hs, f, Method, IsOptions);
    HasValueSnoc(hs, f, Path, FromRoot);
    HasValueSnoc(hs, f, Path, Asterisk);
    HasValueSnoc(hs, f, Scheme, IsHttp);
  }

  lemma RegularSnoc(hs: seq<Field>, f: Field)
    ensures HasRegular(hs + [f]) <==> HasRegular(hs) || !Pseudo(f)
  {
    hide Pseudo;
    var r := hs + [f];
    if HasRegular(hs) { var i :| 0 <= i < |hs| && !Pseudo(hs[i]); assert r[i] == hs[i]; }
    assert r[|hs|] == f;
  }

  /** The length in force after one more field. */
  function NextLength(n: int, f: Field): int
  {
    if Is(f, ContentLength) && Number(f.value) then Decimal(f.value) else n
  }

  lemma NextRepresents(fl: Flags, d: bool, n: int, hs: seq<Field>, f: Field)
    requires Represents(fl, d, n, hs) && (Is(f, ContentLength) ==> Number(f.value))
    ensures Represents(Updated(fl, f), d || !Pseudo(f), NextLength(n, f), hs + [f])
  {
    hide Is, Pseudo, RepresentsTokens, RepresentsValues, HasRegular, Has, Number, Decimal;
    NextTokens(fl, hs, f);
    NextValues(fl, hs, f);
    RegularSnoc(hs, f);
    HasSnoc(hs, f, ContentLength);
    var r := hs + [f];
    assert r[|hs|] == f && forall i :: 0 <= i < |hs| ==> r[i] == hs[i];
  }

  /** What the flags allow is what the list so far allows. */
  lemma AllowsFollows(fl: Flags, d: bool, n: int, hs: seq<Field>, f: Field, odd: bool)
    requires Represents(fl, d, n, hs)
    ensures Allows(fl, n, f, odd) && (Pseudo(f) ==> !d) <==> Follows(hs, f, odd)
  {
    hide Pseudo, Ignored, Proper, IsConnect, Has, HasValue, HasRegular, IsHead, IsOptions, IsHttp, FromRoot,
      Asterisk;
  }

  lemma RepresentsNothing()
    ensures Represents(NONE, false, -1, [])
  {}

  lemma EndsComplete(fl: Flags, d: bool, n: int, hs: seq<Field>)
    requires Represents(fl, d, n, hs)
    ensures Ends(fl) <==> Complete(hs)
  {
    hide Has, HasValue, HasRegular;
  }

  /** All fields of a request and then its end: accepted exactly when the list is consistent and complete. */
  method CheckRequest(s: HttpStream, hs: seq<Field>) returns (ok: bool)
    requires s.flags == NONE && !s.disallowed && s.contentLength == -1
    modifies s`flags, s`contentLength, s`disallowed
    ensures ok <==> Consistent(hs, s.streamId % 2 == 1) && Complete(hs)
    ensures ok && !HasValue(hs, Method, IsConnect) ==> Represents(s.flags, s.disallowed, s.contentLength, hs)
    ensures ok && HasValue(hs, Method, IsConnect) ==> s.contentLength == -1
  {
    hide Represents, Consistent, Complete, Updated, Ends, Allows, Follows, HasValue;
    ghost var odd := s.streamId % 2 == 1;
    RepresentsNothing();
    ConsistentNothing(odd);
    var i := 0;
    assert hs[..0] == [];
    while i < |hs|
      invariant 0 <= i <= |hs| && Consistent(hs[..i], odd) && Represents(s.flags, s.disallowed, s.contentLength, hs[..i])
      invariant s.contentLength >= -1
    {
      ghost var fl, d, n := s.flags, s.disallowed, s.contentLength;
      assert hs[..i + 1] == hs[..i] + [hs[i]];
      AllowsFollows(fl, d, n, hs[..i], hs[i], odd);
      ConsistentSnoc(hs[..i], hs[i], odd);
      var v := s.OnHeader(hs[i], false);
      if v == Rejected {
        ConsistentPrefix(hs, i + 1, odd);
        return false;
      }
      FollowsNumber(hs[..i], hs[i], odd);
      NextRepresents(fl, d, n, hs[..i], hs[i]);
      i := i + 1;
    }
    assert hs[..i] == hs;
    EndsComplete(s.flags, s.disallowed, s.contentLength, hs);
    ConnectIs(s.flags, s.disallowed, s.contentLength, hs);
    ok := s.OnRequestHeaders(false);
  }

  lemma ConnectIs(fl: Flags, d: bool, n: int, hs: seq<Field>)
    requires Represents(fl, d, n, hs)
    ensures fl.connect == HasValue(hs, Method, IsConnect)
  {}

  lemma ConsistentNothing(odd: bool)
    ensures Consistent([], odd)
  {}

  lemma FollowsNumber(hs: seq<Field>, f: Field, odd: bool)
    requires Follows(hs, f, odd)
    ensures Is(f, ContentLength) ==> Number(f.value)
  {}

  lemma {:induction false} ConsistentPrefix(hs: seq<Field>, k: nat, odd: bool)
    requires k <= |hs|
    ensures Consistent(hs, odd) ==> Consistent(hs[..k], odd)
    decreases |hs| - k
  {
    hide Consistent, Follows;
    if k < |hs| {
      ConsistentPrefix(hs, k + 1, odd);
      assert hs[..k + 1] == hs[..k] + [hs[k]];
      ConsistentSnoc(hs[..k], hs[k], odd);
    } else {
      assert hs[..k] == hs;
    }
  }

  // ---------------------------------------------------------------- bodies

  function Sum(ns: seq<nat>): nat
  {
    if ns == [] then 0 else Sum(ns[..|ns| - 1]) + ns[|ns| - 1]
  }

  lemma {:induction false} SumPrefix(ns: seq<nat>, k: nat)
    requires k <= |ns|
    ensures Sum(ns[..k]) <= Sum(ns)
    decreases |ns| - k
  {
    if k < |ns| {
      SumPrefix(ns, k + 1);
      assert ns[..k + 1][..k] == ns[..k];
    } else {
      assert ns[..k] == ns;
    }
  }

  /** All chunks of a body and then its end: accepted exactly when a final response is not still
      awaited and the length in force, if any, is the number of octets received. */
  method CheckBody(s: HttpStream, ns: seq<nat>) returns (ok: bool)
    requires s.received == 0
    modifies s`received
    ensures ok <==> !s.flags.expectFinal && (s.contentLength == -1 || s.contentLength == Sum(ns))
  {
    var i := 0;
    while i < |ns|
      invariant 0 <= i <= |ns| && s.received == Sum(ns[..i])
      invariant i > 0 ==> !s.flags.expectFinal
    {
      assert ns[..i + 1][..i] == ns[..i];
      SumPrefix(ns, i + 1);
      ok := s.OnDataChunk(ns[i]);
      if !ok {
        return;
      }
      i := i + 1;
    }
    assert ns[..i] == ns;
    ok := s.OnRemoteEndStream();
  }

  // ---------------------------------------------------------------- responses

  lemma ZeroNumber()
    ensures Number(ZERO) && Decimal(ZERO) == 0
  {
    DecimalSnoc([], 0x30);
    assert [] + [0x30] == ZERO;
    assert Decimal([]) == 0;
  }

  /** Whether the state of a response allows a kept field. */
  predicate ResponseAllows(status: bool, code: int, n: int, connect: bool, f: Field)
  {
    && ProperInResponse(f)
    && (f.token.Status? ==> !status)
    && (f.token.ContentLength? ==> n == -1 && LengthAllowed(code, connect, f.value))
  }

  /** What the state of a response says of the list so far. The flag that forbids pseudo-headers may lag
      behind after a removed content-length, but then the status is there and no pseudo-header passes. */
  ghost predicate Reflects(s: HttpStream, hs: seq<Field>)
    reads s
  {
    && s.status == Has(hs, Status) && s.statusCode == CodeOf(hs) && (s.status ==> s.statusCode >= 0)
    && s.contentLength >= -1 && (s.contentLength == -1 <==> !Has(hs, ContentLength))
    && (s.contentLength >= 0 ==>
          exists i :: 0 <= i < |hs| && Is(hs[i], ContentLength) && Number(hs[i].value) && Decimal(hs[i].value) == s.contentLength)
    && (s.disallowed ==> HasRegular(hs)) && (HasRegular(hs) && !s.disallowed ==> s.status)
  }

  lemma AllowsInResponse(s: HttpStream, hs: seq<Field>, f: Field)
    requires Reflects(s, hs) && Named(f)
    ensures (Ignored(f) || (Kept(f) && ResponseAllows(s.status, s.statusCode, s.contentLength, s.flags.connect, f)))
            && (Pseudo(f) ==> !s.disallowed)
            <==> FollowsInResponse(hs, f, s.flags.connect)
  {
    hide Has, HasRegular, CodeOf, LengthAllowed, StatusValue, Number, Decimal, EqualsIgnoringCase, Blank;
  }

  /** All fields of a response and then its end: accepted exactly when the list is consistent and has a
      status; the length then in force is that of a final response. */
  method CheckResponse(s: HttpStream, hs: seq<Field>, upgrade: bool) returns (ok: bool)
    requires !s.status && s.statusCode == -1 && !s.disallowed && s.contentLength == -1
    requires forall i :: 0 <= i < |hs| ==> Named(hs[i])
    modifies s`flags, s`contentLength, s`disallowed, s`status, s`statusCode
    ensures ok <==> ConsistentResponse(hs, old(s.flags.connect)) && Has(hs, Status)
    ensures ok && !Informational(CodeOf(hs)) ==>
              !s.flags.expectFinal
              && LengthInForce(hs, old(s.flags.head), old(s.flags.connect) || upgrade, s.contentLength)
    ensures ok && Informational(CodeOf(hs)) ==> s.flags.expectFinal && s.contentLength == -1 && !s.status && !s.disallowed
  {
    hide ConsistentResponse, FollowsInResponse, ResponseAllows, Has, CodeOf, Number, Decimal, Pseudo;
    ghost var connect := s.flags.connect;
    var i := 0;
    assert hs[..0] == [];
    ReflectsNothing(s, connect);
    while i < |hs|
      invariant 0 <= i <= |hs| && ConsistentResponse(hs[..i], connect) && Reflects(s, hs[..i])
      invariant s.flags == old(s.flags)
    {
      assert hs[..i + 1] == hs[..i] + [hs[i]];
      AllowsInResponse(s, hs[..i], hs[i]);
      ResponseSnoc(hs[..i], hs[i], connect);
      ghost var before := (s.status, s.statusCode, s.contentLength, s.disallowed);
      var v := s.OnHeaderOfResponse(hs[i], false);
      if v == Rejected {
        ResponsePrefix(hs, i + 1, connect);
        return false;
      }
      ReflectsNext(s, hs[..i], hs[i], connect, before);
      i := i + 1;
    }
    assert hs[..i] == hs;
    ok := s.OnResponseHeaders(upgrade);
  }

  lemma ReflectsNothing(s: HttpStream, connect: bool)
    requires !s.status && s.statusCode == -1 && !s.disallowed && s.contentLength == -1
    ensures Reflects(s, []) && ConsistentResponse([], connect)
  {}

  /** One more field taken. */
  lemma ReflectsNext(s: HttpStream, hs: seq<Field>, f: Field, connect: bool, was: (bool, int, int, bool))
    requires FollowsInResponse(hs, f, connect) && Named(f)
    requires was.0 == Has(hs, Status) && was.1 == CodeOf(hs) && (was.0 ==> was.1 >= 0)
    requires was.2 >= -1 && (was.2 == -1 <==> !Has(hs, ContentLength))
    requires was.2 >= 0 ==>
               exists i :: 0 <= i < |hs| && Is(hs[i], ContentLength) && Number(hs[i].value) && Decimal(hs[i].value) == was.2
    requires (was.3 ==> HasRegular(hs)) && (HasRegular(hs) && !was.3 ==> was.0)
    requires s.status == (was.0 || Is(f, Status)) && s.contentLength == NextLength(was.2, f)
    requires s.statusCode == if Is(f, Status) && Number(f.value) then Decimal(f.value) else was.1
    requires s.disallowed == (was.3 || (!Pseudo(f) && !(Is(f, ContentLength) && was.1 == 204)))
    ensures Reflects(s, hs + [f])
  {
    hide Has, HasRegular, CodeOf, Pseudo, Blank, EqualsIgnoringCase;
    HasSnoc(hs, f, Status);
    HasSnoc(hs, f, ContentLength);
    RegularSnoc(hs, f);
    CodeSnoc(hs, f);
    CodeIsStatus(hs);
    var r := hs + [f];
    assert r[|hs|] == f && forall i :: 0 <= i < |hs| ==> r[i] == hs[i];
    AllowedIsNumber(CodeOf(hs), connect, f.value);
  }

  lemma CodeIsStatus(hs: seq<Field>)
    ensures CodeOf(hs) >= -1 && (CodeOf(hs) >= 0 ==> Has(hs, Status))
  {}

  lemma AllowedIsNumber(code: int, connect: bool, v: seq<byte>)
    ensures LengthAllowed(code, connect, v) ==> Number(v)
  {
    hide Number, Decimal;
    ZeroNumber();
  }
}
