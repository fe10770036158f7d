/** Classes/Tools/Helper.php: the document root, the API endpoint, the
    current host and nested key lookup. `$_SERVER` entries and the
    `VINOU_ROOT` / `VINOU_SOURCE` constants are parameters. */
module Helper {
  import opened Php

  const ApiLive := "https://api.vinou.de"
  const ApiSandbox := "https://api.sandbox.vinou.de"
  const ApiDev := "http://api.vinou.frog"

  /** The slash normalisation of getNormDocRoot: a non-empty root gets a
      leading and a trailing '/' where it lacks them; "" stays "" */
  function NormalizeDocRoot(str: string): (r: string)
    ensures str != [] && str[0] == '/' && str[|str| - 1] == '/' ==> r == str
  {
    if |str| == 0 then str
    else
      var withLead := if str[0] != '/' then "/" + str else str;
      if withLead[|withLead| - 1] != '/' then withLead + "/" else withLead
  }

  /** The result is empty exactly when the input is, and otherwise starts and
      ends with '/' and holds the input between at most one added slash at
      each end */
  lemma NormalizeDocRootShape(str: string)
    ensures NormalizeDocRoot(str) == [] <==> str == []
    ensures str != [] ==> NormalizeDocRoot(str)[0] == '/' && NormalizeDocRoot(str)[|NormalizeDocRoot(str)| - 1] == '/'
    ensures exists pre, post :: pre in {"", "/"} && post in {"", "/"} && NormalizeDocRoot(str) == pre + str + post
  {
    var r := NormalizeDocRoot(str);
    if str == [] {
      assert r == "" + str + "";
    } else {
      var pre := if str[0] != '/' then "/" else "";
      var withLead := pre + str;
      assert withLead[|withLead| - 1] == str[|str| - 1];
      var post := if str[|str| - 1] != '/' then "/" else "";
      assert r == pre + str + post;
    }
  }

  /** Normalising twice is normalising once */
  lemma NormalizeDocRootIdempotent(str: string)
    ensures NormalizeDocRoot(NormalizeDocRoot(str)) == NormalizeDocRoot(str)
  {
    NormalizeDocRootShape(str);
  }

  /** The static memo of getNormDocRoot (None stands for its initial NULL) */
  class DocRootCache {
    var normDocRoot: Option<string>

    constructor()
      ensures normDocRoot == None
    {
      normDocRoot := None;
    }

    /** `vinouRoot` is VINOU_ROOT when defined, `documentRoot` the server's
        document root. The memo is consulted with a loose `== NULL`, so a
        cached "" counts as missing and is computed again. */
    method GetNormDocRoot(vinouRoot: Option<string>, documentRoot: string) returns (r: string)
      modifies this
      ensures old(normDocRoot) in {None, Some("")} ==>
        r == NormalizeDocRoot(if vinouRoot.Some? then vinouRoot.value else documentRoot)
      ensures !(old(normDocRoot) in {None, Some("")}) ==> r == old(normDocRoot).value
      ensures normDocRoot == Some(r)
    {
      if normDocRoot == None || normDocRoot == Some("") {
        var str := if vinouRoot.Some? then vinouRoot.value else documentRoot;
        var source := str;
        var strLength := |str|;
        if strLength > 0 {
          if str[0] != '/' {
            str := "/" + str;
            strLength := strLength + 1;
          }
          if str[strLength - 1] != '/' {
            str := str + "/";
          }
        }
        assert str == NormalizeDocRoot(source);
        normDocRoot := Some(str);
      }
      r := normDocRoot.value;
    }
  }

  /** The endpoint chosen by the HTTP_HOST switch alone */
  function HostEndpoint(httpHost: string): string
  {
    if httpHost == "shop.vinou.frog" then ApiSandbox
    else if httpHost == "shop.sandbox.vinou.de" then ApiSandbox
    else ApiLive
  }

  /** getApiUrl: the host mapping, then the three VINOU_SOURCE overrides in
      turn (each a strict comparison with a string) */
  function GetApiUrl(httpHost: string, vinouSource: Option<Value>): (r: string)
    ensures r in {ApiLive, ApiSandbox, ApiDev}
    ensures r == ApiDev <==> vinouSource == Some(Str("Dev"))
    ensures vinouSource == Some(Str("Sandbox")) ==> r == ApiSandbox
    ensures vinouSource == Some(Str("Live")) ==> r == ApiLive
    ensures !(vinouSource in {Some(Str("Dev")), Some(Str("Sandbox")), Some(Str("Live"))}) ==>
      (r == ApiSandbox <==> httpHost in {"shop.vinou.frog", "shop.sandbox.vinou.de"}) &&
      (r == ApiLive <==> !(httpHost in {"shop.vinou.frog", "shop.sandbox.vinou.de"}))
  {
    var apiurl := HostEndpoint(httpHost);
    var dev := if vinouSource == Some(Str("Dev")) then ApiDev else apiurl;
    var sandbox := if vinouSource == Some(Str("Sandbox")) then ApiSandbox else dev;
    if vinouSource == Some(Str("Live")) then ApiLive else sandbox
  }

  /** getCurrentHost: "https://" only when strpos finds "https" at a
      non-zero offset (a match at offset 0 is falsy) */
  function GetCurrentHost(serverProtocol: string, httpHost: string): (r: string)
    ensures r == "https://" + httpHost || r == "http://" + httpHost
    ensures r == "https://" + httpHost <==>
      (exists k: nat :: OccursAt(serverProtocol, "https", k)) && !OccursAt(serverProtocol, "https", 0)
  {
    var protocol := match Find(serverProtocol, "https")
      case Some(k) => if k != 0 then "https://" else "http://"
      case None => "http://";
    assert "https://" + httpHost != "http://" + httpHost by {
      assert ("https://" + httpHost)[4] != ("http://" + httpHost)[4];
    }
    protocol + httpHost
  }

  /** The nested lookup findKeyInArray performs: descend key by key, failing
      as soon as a key is not set */
  function Lookup(keys: seq<string>, v: Value): (r: Option<Value>)
    ensures keys == [] ==> r == Some(v)
    ensures keys != [] && !IsSetAt(v, keys[0]) ==> r == None
    decreases |keys|
  {
    if keys == [] then Some(v)
    else if IsSetAt(v, keys[0]) then Lookup(keys[1..], At(v, keys[0]))
    else None
  }

  /** Looking up a concatenated path is looking up the second part below the
      result of the first */
  lemma {:induction false} LookupAppend(k1: seq<string>, k2: seq<string>, v: Value)
    ensures Lookup(k1 + k2, v) == (match Lookup(k1, v) case Some(w) => Lookup(k2, w) case None => None)
    decreases |k1|
  {
    if k1 == [] {
      assert k1 + k2 == k2;
    } else {
      assert (k1 + k2)[0] == k1[0];
      assert (k1 + k2)[1..] == k1[1..] + k2;
      if IsSetAt(v, k1[0]) {
        LookupAppend(k1[1..], k2, At(v, k1[0]));
      }
    }
  }

  /** Every step of a successful lookup reads a set, hence non-null, entry */
  lemma {:induction false} LookupFoundNotNull(keys: seq<string>, v: Value)
    requires keys != [] && Lookup(keys, v).Some?
    ensures Lookup(keys, v).value != Null
    decreases |keys|
  {
    if |keys| > 1 {
      LookupFoundNotNull(keys[1..], At(v, keys[0]));
    }
  }

  /** findKeyInArray: the value under the key path, or false */
  method FindKeyInArray(keyArray: seq<string>, input: Value) returns (r: Value)
    ensures Lookup(keyArray, input).Some? ==> r == Lookup(keyArray, input).value
    ensures Lookup(keyArray, input).None? ==> r == Bool(false)
  {
    var searchArray := input;
    var i := 0;
    while i < |keyArray|
      invariant 0 <= i <= |keyArray|
      invariant Lookup(keyArray, input) == Lookup(keyArray[i..], searchArray)
    {
      var key := keyArray[i];
      assert keyArray[i..][1..] == keyArray[i + 1..];
      if IsSetAt(searchArray, key) {
        searchArray := At(searchArray, key);
      } else {
        return Bool(false);
      }
      i := i + 1;
    }
    return searchArray;
  }
}
