/**
 * The client side of the storage server's HTTP interface (`ServerInterface`,
 * of which the export client carries a copy limited to the first three
 * calls below). The client holds the base URL, the owner name as sent, and
 * the passphrase hash; each call builds a query URL and reports whether the
 * server answered with a success status. The HTTP transport, its TLS
 * set-up and the Argon2 hash (a parameter `hash`) are not modelled; each
 * server answer is an input.
 */
module ServerApi {
  import opened Wrappers
  import opened Text
  import opened QueryStrings

  datatype Verb = Get | Post

  /** A request as it leaves the client: the verb and the full URL. */
  datatype Request = Request(verb: Verb, url: string)

  /** The two parameters every call starts with. */
  function CredentialParams(ownerName: string, passphraseHash: string): seq<Parameter> {
    [Parameter("ownerName", ownerName), Parameter("passphraseHash", passphraseHash)]
  }

  /** The parameters of a partial upload; the bounds are already round-trip ("O") text in UTC. */
  function PartialUploadParams(ownerName: string, passphraseHash: string, startText: string, endText: string): seq<Parameter> {
    CredentialParams(ownerName, passphraseHash)
      + [Parameter("modifiedInterval_Start", startText), Parameter("modifiedInterval_End", endText)]
  }

  /** The parameters of a data download. */
  function SnapshotDataParams(ownerName: string, passphraseHash: string, id: int): seq<Parameter> {
    CredentialParams(ownerName, passphraseHash) + [Parameter("id", IntToDecimal(id))]
  }

  class ServerInterface {
    const url: string
    const ownerName: string
    const passphraseHash: string

    /**
     * The base URL loses its trailing slashes and gains `/calendar`; the
     * passphrase is always hashed, the owner name only when `hashOwnerName`.
     */
    constructor (url: string, ownerName: string, passphrase: string, hashOwnerName: bool, hash: string -> string)
      ensures this.url == TrimEndSlash(url) + "/calendar"
      ensures this.ownerName == if hashOwnerName then hash(ownerName) else ownerName
      ensures this.passphraseHash == hash(passphrase)
    {
      this.url := TrimEndSlash(url) + "/calendar";
      this.ownerName := if hashOwnerName then hash(ownerName) else ownerName;
      this.passphraseHash := hash(passphrase);
    }

    /** `GetQueryUrl`: the builder loop with its `passedFirst` flag. */
    method GetQueryUrl(action: string, queryParameters: seq<Parameter>) returns (r: string)
      ensures r == QueryUrl(url, action, queryParameters)
    {
      var sb := url;
      sb := sb + "/";
      sb := sb + action;
      ghost var prefix := sb;
      if |queryParameters| > 0 {
        var passedFirst := false;
        sb := sb + "?";
        for i := 0 to |queryParameters|
          invariant passedFirst <==> i > 0
          invariant sb == Built(prefix, queryParameters, i)
        {
          if passedFirst {
            sb := sb + "&";
          } else {
            passedFirst := true;
          }
          var key := EscapeDataString(queryParameters[i].key);
          var value := EscapeDataString(queryParameters[i].value);
          sb := sb + key;
          sb := sb + "=";
          sb := sb + value;
          if i == 0 {
            BuildFirst(prefix, queryParameters, sb);
          } else {
            BuildNext(prefix, queryParameters, i, sb);
          }
        }
        BuiltAll(prefix, queryParameters);
        QueryUrlWithParameters(url, action, queryParameters);
      }
      r := sb;
    }

    /** `Authenticate`: a GET of `Authenticate` with the credentials. */
    method Authenticate(isSuccessStatusCode: bool) returns (ok: bool, request: Request)
      ensures request == Request(Get, QueryUrl(url, "Authenticate", CredentialParams(ownerName, passphraseHash)))
      ensures ok == isSuccessStatusCode
    {
      var u := GetQueryUrl("Authenticate", CredentialParams(ownerName, passphraseHash));
      return isSuccessStatusCode, Request(Get, u);
    }

    /** `AuthenticateOrCreate`: a POST of `ReserveName` with the credentials. */
    method AuthenticateOrCreate(isSuccessStatusCode: bool) returns (ok: bool, request: Request)
      ensures request == Request(Post, QueryUrl(url, "ReserveName", CredentialParams(ownerName, passphraseHash)))
      ensures ok == isSuccessStatusCode
    {
      var u := GetQueryUrl("ReserveName", CredentialParams(ownerName, passphraseHash));
      return isSuccessStatusCode, Request(Post, u);
    }

    /**
     * `UploadPartialSnapshot`: a POST of `AddPartialSnapshot`; `roundTripUtc`
     * stands for `ToUniversalTime().ToString("O")`.
     */
    method UploadPartialSnapshot(from: int, to: int, roundTripUtc: int -> string, isSuccessStatusCode: bool)
      returns (ok: bool, request: Request)
      ensures request == Request(Post, QueryUrl(url, "AddPartialSnapshot",
        PartialUploadParams(ownerName, passphraseHash, roundTripUtc(from), roundTripUtc(to))))
      ensures ok == isSuccessStatusCode
    {
      var u := GetQueryUrl("AddPartialSnapshot",
        PartialUploadParams(ownerName, passphraseHash, roundTripUtc(from), roundTripUtc(to)));
      return isSuccessStatusCode, Request(Post, u);
    }

    /** `UploadFullSnapshot`: a POST of `AddFullSnapshot` with the credentials. */
    method UploadFullSnapshot(isSuccessStatusCode: bool) returns (ok: bool, request: Request)
      ensures request == Request(Post, QueryUrl(url, "AddFullSnapshot", CredentialParams(ownerName, passphraseHash)))
      ensures ok == isSuccessStatusCode
    {
      var u := GetQueryUrl("AddFullSnapshot", CredentialParams(ownerName, passphraseHash));
      return isSuccessStatusCode, Request(Post, u);
    }

    /**
     * `GetAvailableSnapshots`: a GET of `GetAvaliableSnapshots` (the
     * server's spelling); `response` is the deserialized listing of a
     * success status, `None` for any other status.
     */
    method GetAvailableSnapshots<L>(response: Option<L>) returns (listing: Option<L>, request: Request)
      ensures request == Request(Get, QueryUrl(url, "GetAvaliableSnapshots", CredentialParams(ownerName, passphraseHash)))
      ensures listing == response
    {
      var u := GetQueryUrl("GetAvaliableSnapshots", CredentialParams(ownerName, passphraseHash));
      return response, Request(Get, u);
    }

    /** `GetSnapshotData`: a GET of `GetSnapshotData` with the id as its decimal text. */
    method GetSnapshotData(id: int, response: Option<seq<byte>>) returns (data: Option<seq<byte>>, request: Request)
      ensures request == Request(Get, QueryUrl(url, "GetSnapshotData", SnapshotDataParams(ownerName, passphraseHash, id)))
      ensures data == response
    {
      var u := GetQueryUrl("GetSnapshotData", SnapshotDataParams(ownerName, passphraseHash, id));
      return response, Request(Get, u);
    }
  }

  /** The builder's contents after `i` turns of the loop over `ps`. */
  function Built(prefix: string, ps: seq<Parameter>, i: nat): string
    requires i <= |ps|
  {
    if i == 0 then prefix + "?" else prefix + "?" + QueryString(ps[..i])
  }

  /** The first turn of the loop writes the escaped key, `=` and the escaped value. */
  lemma BuildFirst(prefix: string, ps: seq<Parameter>, after: string)
    requires 0 < |ps|
    requires after == Built(prefix, ps, 0) + EscapeDataString(ps[0].key) + "=" + EscapeDataString(ps[0].value)
    ensures after == Built(prefix, ps, 1)
  {
    assert ps[..1] == [ps[0]];
    QueryStringOne(ps[0]);
    var k, v := EscapeDataString(ps[0].key), EscapeDataString(ps[0].value);
    assert prefix + "?" + k + "=" + v == prefix + "?" + (k + "=" + v);
  }

  /** A later turn writes `&` before the pair. */
  lemma BuildNext(prefix: string, ps: seq<Parameter>, i: nat, after: string)
    requires 0 < i < |ps|
    requires after == Built(prefix, ps, i) + "&" + EscapeDataString(ps[i].key) + "=" + EscapeDataString(ps[i].value)
    ensures after == Built(prefix, ps, i + 1)
  {
    QueryStringSnoc(ps, i);
    Regroup(prefix + "?", QueryString(ps[..i]), EscapeDataString(ps[i].key), EscapeDataString(ps[i].value));
  }

  lemma Regroup(a: string, q: string, k: string, v: string)
    ensures a + q + "&" + k + "=" + v == a + (q + "&" + (k + "=" + v))
  {
  }

  lemma BuiltAll(prefix: string, ps: seq<Parameter>)
    requires |ps| > 0
    ensures Built(prefix, ps, |ps|) == prefix + "?" + QueryString(ps)
  {
    assert ps[..|ps|] == ps;
  }

  /** Trailing slashes on the configured URL do not change the base URL. */
  lemma TrailingSlashIgnored(url: string)
    ensures TrimEndSlash(url + "/") == TrimEndSlash(url)
  {
    assert (url + "/")[..|url|] == url;
  }

  /**
   * What the server reads from a partial upload's query: owner name,
   * passphrase hash, start and end, in that order, as UTF-8.
   */
  lemma PartialUploadReadsBack(ownerName: string, passphraseHash: string, startText: string, endText: string)
    ensures var q := QueryString(PartialUploadParams(ownerName, passphraseHash, startText, endText));
      DecodePairs(Split(q, '&')) == Some([
        (Utf8String("ownerName"), Utf8String(ownerName)),
        (Utf8String("passphraseHash"), Utf8String(passphraseHash)),
        (Utf8String("modifiedInterval_Start"), Utf8String(startText)),
        (Utf8String("modifiedInterval_End"), Utf8String(endText))])
  {
    var a := Parameter("ownerName", ownerName);
    var b := Parameter("passphraseHash", passphraseHash);
    var c := Parameter("modifiedInterval_Start", startText);
    var d := Parameter("modifiedInterval_End", endText);
    assert PartialUploadParams(ownerName, passphraseHash, startText, endText) == [a, b] + [c, d];
    FourReadBack(a, b, c, d);
  }

  /** What the server reads from the credentials-only calls: owner name, then passphrase hash. */
  lemma CredentialsReadBack(ownerName: string, passphraseHash: string)
    ensures var q := QueryString(CredentialParams(ownerName, passphraseHash));
      DecodePairs(Split(q, '&')) == Some([
        (Utf8String("ownerName"), Utf8String(ownerName)),
        (Utf8String("passphraseHash"), Utf8String(passphraseHash))])
  {
    var a := Parameter("ownerName", ownerName);
    var b := Parameter("passphraseHash", passphraseHash);
    QueryRoundTrip([a, b]);
    EncodedTwo(a, b);
  }

  lemma FourReadBack(a: Parameter, b: Parameter, c: Parameter, d: Parameter)
    ensures DecodePairs(Split(QueryString([a, b] + [c, d]), '&')) == Some([
        (Utf8String(a.key), Utf8String(a.value)), (Utf8String(b.key), Utf8String(b.value)),
        (Utf8String(c.key), Utf8String(c.value)), (Utf8String(d.key), Utf8String(d.value))])
  {
    QueryRoundTrip([a, b] + [c, d]);
    EncodedAppend([a, b], [c, d]);
    EncodedTwo(a, b);
    EncodedTwo(c, d);
    var x := [(Utf8String(a.key), Utf8String(a.value)), (Utf8String(b.key), Utf8String(b.value))];
    var y := [(Utf8String(c.key), Utf8String(c.value)), (Utf8String(d.key), Utf8String(d.value))];
    assert Encoded([a, b] + [c, d]) == x + y;
    assert x + y == [x[0], x[1], y[0], y[1]];
  }

  lemma EncodedTwo(a: Parameter, b: Parameter)
    ensures Encoded([a, b]) == [(Utf8String(a.key), Utf8String(a.value)), (Utf8String(b.key), Utf8String(b.value))]
  {
    assert [a, b][..1] == [a];
    assert [a][..0] == [];
  }

  lemma {:induction false} EncodedAppend(ps: seq<Parameter>, qs: seq<Parameter>)
    ensures Encoded(ps + qs) == Encoded(ps) + Encoded(qs)
  {
    if qs == [] {
      assert ps + qs == ps;
    } else {
      var init := qs[..|qs| - 1];
      assert (ps + qs)[..|ps + qs| - 1] == ps + init;
      EncodedAppend(ps, init);
    }
  }
}
