/** The record side of acloud/sandbox.go: the sandbox credential, the copy of
    the scraped elements into it, its key/value listing, and the empty-result
    check that ends Sandbox. The browser session that finds the elements is
    not modelled: the scraped elements are given, each as the text that
    MustText reads from it. */
module ACloud {
  import opened Wrappers

  const NoElementsFound := "no elements found"

  /** SandboxCredential. Its ID is an int64 in Go; SimpleCopy leaves it 0. */
  datatype SandboxCredential = SandboxCredential(
    id: int,
    user: string,
    password: string,
    url: string,
    keyID: string,
    accessKey: string)

  /** The keys KeyVals lists, in its order. */
  const CredentialKeys: seq<string> := ["username", "password", "url", "keyid", "accesskey"]

  /** The field a key of CredentialKeys names; every listed key names one,
      and no other key names any. */
  function Field(c: SandboxCredential, key: string): (r: Option<string>)
    ensures r.Some? <==> key in CredentialKeys
  {
    if key == "username" then Some(c.user)
    else if key == "password" then Some(c.password)
    else if key == "url" then Some(c.url)
    else if key == "keyid" then Some(c.keyID)
    else if key == "accesskey" then Some(c.accessKey)
    else None
  }

  /** The check that ends Sandbox: no element is an error, any other result
      is passed on as it is, however few elements it holds. */
  function Sandbox(elems: seq<string>): (r: Result<seq<string>, string>)
    ensures r.Failure? <==> |elems| == 0
    ensures r.Failure? ==> r.error == NoElementsFound
    ensures r.Success? ==> r.value == elems
  {
    if |elems| == 0 then Failure(NoElementsFound) else Success(elems)
  }

  /** SimpleCopy: elements 0 to 4 become the user, password, URL, key id and
      access key, in KeyVals' order; the ID stays 0, later elements are not
      read, and the error is always nil. It indexes elems[4] unguarded, so
      it needs five elements. */
  function SimpleCopy(elems: seq<string>): (r: (SandboxCredential, Option<string>))
    requires |elems| >= 5
    ensures r.1 == None
    ensures r.0.id == 0
    ensures KeyVals(r.0).1 == elems[..5]
  {
    (SandboxCredential(0, elems[0], elems[1], elems[2], elems[3], elems[4]), None)
  }

  /** KeyVals: the fixed keys and, position by position, the values of the
      fields they name. */
  function KeyVals(creds: SandboxCredential): (r: (seq<string>, seq<string>))
    ensures r.0 == CredentialKeys
    ensures |r.1| == |r.0|
    ensures forall i :: 0 <= i < |r.0| ==> Field(creds, r.0[i]) == Some(r.1[i])
  {
    var keys := ["username", "password", "url", "keyid", "accesskey"];
    var vals := [creds.user, creds.password, creds.url, creds.keyID, creds.accessKey];
    (keys, vals)
  }

  /** The other round trip: copying a credential's listed values back gives
      the credential, except for its ID. */
  lemma KeyValsRoundTrip(c: SandboxCredential)
    ensures SimpleCopy(KeyVals(c).1).0 == c.(id := 0)
  {
  }

  /** SimpleCopy reads only the first five elements. */
  lemma SimpleCopyIgnoresRest(elems: seq<string>, more: seq<string>)
    requires |elems| >= 5
    ensures SimpleCopy(elems + more) == SimpleCopy(elems)
  {
    assert (elems + more)[..5] == elems[..5];
  }
}
