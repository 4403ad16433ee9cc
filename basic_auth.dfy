/** `basicAuthentication`: the parser of an `Authorization` header value in the Basic scheme
    (RFC 7617, section 2), as the gateway writes it. */
module BasicAuth {
  import opened Basics
  import opened Strings
  import opened Base64

  datatype Credentials = Credentials(username: string, password: string)

  /** The three ways the parser throws. */
  datatype AuthError =
    | MalformedHeader     // "Malformed authorization header.": no `Basic <token>` at the front
    | UndecodablePayload  // the InvalidCharacterError that `atob` throws
    | InvalidValue        // "Invalid authorization value.": no `:`, or a control character

  /** The header value starts with the scheme `Basic` (matched case-sensitively), one space,
      and a non-empty second field. */
  predicate HasBasicScheme(h: string) {
    |h| > 6 && h[..6] == "Basic " && h[6] != ' '
  }

  /** The second space-separated field: the base64 text after `Basic `. */
  function Payload(h: string): string
    requires HasBasicScheme(h)
  {
    Split(h[6..], ' ')[0]
  }

  /** The user-pass text of RFC 7617: user-id, a colon, then the password. */
  function UserPass(c: Credentials): string {
    c.username + ":" + c.password
  }

  /** The parser. The value is split on spaces and only its first two fields are looked at: the
      first must be `Basic` and the second, non-empty, is the token that `DecodeToken` reads. */
  function BasicAuthentication(authorization: string): (r: Result<Credentials, AuthError>)
    ensures r == Failure(MalformedHeader) <==> !HasBasicScheme(authorization)
    ensures HasBasicScheme(authorization) && Atob(Payload(authorization)).None?
            ==> r == Failure(UndecodablePayload)
    ensures HasBasicScheme(authorization) && Atob(Payload(authorization)).Some? ==>
              var text := BinaryString(Atob(Payload(authorization)).value);
              && (r.Success? <==> ':' in text && !HasControl(text))
              && (r.Success? ==> UserPass(r.value) == text)
              && (r.Failure? ==> r.error == InvalidValue)
    ensures r.Success? ==> ':' !in r.value.username
    ensures r.Success? ==> !HasControl(r.value.username) && !HasControl(r.value.password)
    ensures r.Success? ==> IsLatin1(r.value.username) && IsLatin1(r.value.password)
  {
    var fields := Split(authorization, ' ');
    SchemeFields(authorization);
    if |fields| < 2 || fields[1] == "" || fields[0] != "Basic" then Failure(MalformedHeader)
    else DecodeToken(fields[1])
  }

  /** The token's half of the parser: `atob`, then `normalize()`, which leaves the text as it
      is, since every code point of an `atob` result is below U+0100 and such text is already in
      Unicode normalization form C; then the split at the first colon. */
  function DecodeToken(token: string): (r: Result<Credentials, AuthError>)
    ensures r != Failure(MalformedHeader)
    ensures Atob(token).None? ==> r == Failure(UndecodablePayload)
    ensures Atob(token).Some? ==>
              var text := BinaryString(Atob(token).value);
              && (r.Success? <==> ':' in text && !HasControl(text))
              && (r.Success? ==> UserPass(r.value) == text)
              && (r.Failure? ==> r.error == InvalidValue)
    ensures r.Success? ==> ':' !in r.value.username
    ensures r.Success? ==> !HasControl(r.value.username) && !HasControl(r.value.password)
    ensures r.Success? ==> IsLatin1(r.value.username) && IsLatin1(r.value.password)
  {
    match Atob(token)
    case None => Failure(UndecodablePayload)
    case Some(bytes) =>
      var decoded := BinaryString(bytes);
      match IndexOf(decoded, ':')
      case None => Failure(InvalidValue)
      case Some(index) =>
        if HasControl(decoded) then Failure(InvalidValue)
        else
          SplitAtColon(decoded, index);
          Success(Credentials(decoded[..index], decoded[index + 1..]))
  }

  /** The test on the split fields is exactly `HasBasicScheme`, and the second field is the
      payload. */
  lemma SchemeFields(h: string)
    ensures var fields := Split(h, ' ');
            (|fields| >= 2 && fields[1] != "" && fields[0] == "Basic") <==> HasBasicScheme(h)
    ensures HasBasicScheme(h) ==> |Split(h, ' ')| >= 2 && Split(h, ' ')[1] == Payload(h)
  {
    var fields := Split(h, ' ');
    if HasBasicScheme(h) {
      assert h == "Basic" + [' '] + h[6..];
      SplitAppend("Basic", h[6..], ' ');
      SplitWithoutSeparator("Basic", ' ');
      var rest := h[6..];
      assert rest[0] != ' ';
      assert Split(rest, ' ')[0] != "" by {
        match IndexOf(rest, ' ')
        case None =>
        case Some(j) => assert j != 0;
      }
    }
    if |fields| >= 2 && fields[1] != "" && fields[0] == "Basic" {
      var i := IndexOf(h, ' ').value;
      assert h[..i] == "Basic";
      assert fields[1..] == Split(h[i + 1..], ' ');
      var rest := h[i + 1..];
      assert rest != "" && rest[0] != ' ';
      assert h[..6] == "Basic ";
    }
  }

  /** Splitting at the first colon leaves a colon-free user-id, and neither half has a control
      character or a code point above U+00FF that the whole lacked. */
  lemma SplitAtColon(text: string, index: nat)
    requires index < |text| && text[index] == ':' && ':' !in text[..index]
    ensures text[..index] + ":" + text[index + 1..] == text
    ensures !HasControl(text) ==> !HasControl(text[..index]) && !HasControl(text[index + 1..])
    ensures IsLatin1(text) ==> IsLatin1(text[..index]) && IsLatin1(text[index + 1..])
  {
    assert text == text[..index] + [text[index]] + text[index + 1..];
    var after := text[index + 1..];
    if !HasControl(text) {
      forall i | 0 <= i < |after| ensures !IsControl(after[i]) {
        assert after[i] == text[index + 1 + i];
      }
    }
    if IsLatin1(text) {
      forall i | 0 <= i < |after| ensures after[i] as int < 0x100 {
        assert after[i] == text[index + 1 + i];
      }
    }
  }

  /** The user-pass text of an admissible pair keeps the properties of its parts, and its first
      colon is the one after the user-id. */
  lemma UserPassText(u: string, p: string)
    requires ':' !in u
    requires IsLatin1(u) && IsLatin1(p)
    requires !HasControl(u) && !HasControl(p)
    ensures var text := UserPass(Credentials(u, p));
            IsLatin1(text) && !HasControl(text) && IndexOf(text, ':') == Some(|u|)
            && text[..|u|] == u && text[|u| + 1..] == p
  {
    var text := UserPass(Credentials(u, p));
    assert text == u + [':'] + p;
    forall i | |u| < i < |text| ensures text[i] == p[i - |u| - 1] {
    }
    assert text[..|u|] == u;
    assert text[|u| + 1..] == p;
    IndexOfFirst(text, ':', |u|);
  }

  /** A header made of `Basic `, a space and a base64 encoding of at least one byte passes the
      scheme test, and its payload is that encoding. */
  lemma EncodedHeader(bytes: seq<byte>)
    requires |bytes| > 0
    ensures HasBasicScheme("Basic " + Encode(bytes))
    ensures Payload("Basic " + Encode(bytes)) == Encode(bytes)
  {
    var encoded := Encode(bytes);
    var h := "Basic " + encoded;
    assert h[6..] == encoded && h[..6] == "Basic ";
    assert h[6] == encoded[0];
    assert ' ' !in encoded;
  }

  /** Round trip: a colon-free user-id and any password, both free of control characters and
      of code points above U+00FF, come back from the header that `"Basic " + btoa(u + ":" + p)`
      builds. */
  lemma RoundTrip(u: string, p: string)
    requires ':' !in u
    requires IsLatin1(u) && IsLatin1(p)
    requires !HasControl(u) && !HasControl(p)
    ensures Btoa(UserPass(Credentials(u, p))).Some?
    ensures BasicAuthentication("Basic " + Btoa(UserPass(Credentials(u, p))).value)
            == Success(Credentials(u, p))
  {
    var text := UserPass(Credentials(u, p));
    UserPassText(u, p);
    var bytes := BinaryBytes(text);
    EncodedHeader(bytes);
    AtobEncode(bytes);
  }

  /** Fields after the second are ignored: appending a space and anything at all to a header
      that already has two fields leaves the outcome unchanged. */
  lemma TrailingFieldsIgnored(h: string, extra: string)
    requires |Split(h, ' ')| >= 2
    ensures BasicAuthentication(h + " " + extra) == BasicAuthentication(h)
  {
    SplitAppend(h, extra, ' ');
    assert h + " " + extra == h + [' '] + extra;
    var f, g := Split(h, ' '), Split(h + " " + extra, ' ');
    assert g[0] == f[0] && g[1] == f[1];
    SchemeFields(h);
    SchemeFields(h + " " + extra);
  }

  /** The scheme is matched case-sensitively: a lower-case `basic` is a malformed header,
      although section 2.1 of RFC 7235 makes scheme names case-insensitive. */
  lemma SchemeIsCaseSensitive(rest: string)
    ensures BasicAuthentication("basic " + rest) == Failure(MalformedHeader)
  {
    assert ("basic " + rest)[0] == 'b';
  }
}
