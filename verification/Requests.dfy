/** What a cache server answers its clients. */
module Requests {
  import opened Options
  import opened Wire
  import opened Recency
  import opened Migration

  function Success(key: string, address: string): string {
    "SUCCESS#" + key + "#" + address
  }

  function Failed(key: string, address: string): string {
    "FAILED#" + key + "#" + address
  }

  /** A request without '#' reads a key; one with a '#' writes what follows it. */
  function Answer(s: Store, request: string, address: string): string {
    match Slice(request)
    case Some(parts) => Success(parts.0, address)
    case None =>
      match Lookup(s, request)
      case Some(v) => Success(request, address) + "#" + v
      case None => Failed(request, address)
  }

  function Serve(s: Store, capacity: int, request: string): Store {
    match Slice(request)
    case Some(parts) => Put(s, capacity, parts.0, parts.1)
    case None => Get(s, request)
  }

  /** What was just written is what a read returns, for any key without '#' and
      any value, unless the cache has no room at all. */
  lemma ReadsWhatWasWritten(s: Store, capacity: int, key: string, val: string, address: string)
    requires Fits(s, capacity) && capacity > 0 && Clean(key)
    ensures Answer(Serve(s, capacity, Sep(key, val)), key, address) == Success(key, address) + "#" + val
  {
    SliceInvertsIff(key, val);
    CleanHasNoHash(key);
    PutIsFirst(s, capacity, key, val);
    assert Lookup(Put(s, capacity, key, val), key) == Some(val);
  }

  function Use(request: string): Op<string, string> {
    match Slice(request)
    case Some(parts) => PutOp(parts.0, parts.1)
    case None => GetOp(request)
  }

  /** Clients can only ever store keys without '#', which is what lets a dying
      cache send its entries as text. */
  lemma ServeKeepsKeysClean(s: Store, capacity: int, request: string)
    requires Fits(s, capacity) && CleanKeys(s)
    ensures Fits(Serve(s, capacity, request), capacity) && CleanKeys(Serve(s, capacity, request))
  {
    var op := Use(request);
    ApplyKeepsFits(s, capacity, op);
    if Slice(request).Some? {
      BeforeFirstHashIsClean(request);
    }
    if Lookup(s, op.key).Some? {
      LookupMeansHas(s, op.key);
      var i := IndexOf(s, op.key);
    }
  }

  // ---------- what the answers say ----------

  lemma TwoFields(a: string, b: string)
    requires Clean(a) && Clean(b)
    ensures Fields(Sep(a, b)) == [a, b]
  {
    FieldsSplit(a, b);
    FieldsOfClean(b);
  }

  lemma ThreeFields(a: string, b: string, c: string)
    requires Clean(a) && Clean(b) && Clean(c)
    ensures Fields(Sep(a, Sep(b, c))) == [a, b, c]
  {
    FieldsSplit(a, Sep(b, c));
    TwoFields(b, c);
  }

  lemma FourFields(a: string, b: string, c: string, rest: string)
    requires Clean(a) && Clean(b) && Clean(c)
    ensures Fields(Sep(a, Sep(b, Sep(c, rest)))) == [a, b, c] + Fields(rest)
  {
    hide Fields, Sep, Clean;
    FieldsSplit(a, Sep(b, Sep(c, rest)));
    FieldsSplit(b, Sep(c, rest));
    FieldsSplit(c, rest);
    assert [a] + ([b] + ([c] + Fields(rest))) == [a, b, c] + Fields(rest);
  }

  lemma FailedText(key: string, address: string)
    ensures Failed(key, address) == Sep("FAILED", Sep(key, address))
  {
    assert "FAILED" + "#" == "FAILED#";
  }

  lemma SuccessText(key: string, address: string)
    ensures Success(key, address) == Sep("SUCCESS", Sep(key, address))
  {
    assert "SUCCESS" + "#" == "SUCCESS#";
  }

  lemma ValueText(key: string, address: string, val: string)
    ensures Success(key, address) + "#" + val == Sep("SUCCESS", Sep(key, Sep(address, val)))
  {
    SuccessText(key, address);
    SepIsAssociative(key, address, val);
    SepIsAssociative("SUCCESS", Sep(key, address), val);
    hide Success;
    assert Sep(Success(key, address), val) == Success(key, address) + "#" + val;
  }

  /** The answer to a read, in full. */
  lemma ReadAnswerText(s: Store, key: string, address: string)
    requires Clean(key)
    ensures Answer(s, key, address) ==
            match Lookup(s, key)
            case None => Sep("FAILED", Sep(key, address))
            case Some(v) => Sep("SUCCESS", Sep(key, Sep(address, v)))
  {
    CleanHasNoHash(key);
    hide Sep, Slice, Success, Failed, Lookup, Clean;
    match Lookup(s, key)
    case None => FailedText(key, address);
    case Some(v) => ValueText(key, address, v);
  }

  /** A read answered field by field: FAILED, the key and the address when the key
      is not there, and SUCCESS, the key, the address and the fields of the value
      when it is. */
  lemma ReadAnswerFields(s: Store, key: string, address: string)
    requires Clean(key) && Clean(address)
    ensures Fields(Answer(s, key, address)) ==
            match Lookup(s, key)
            case None => ["FAILED", key, address]
            case Some(v) => ["SUCCESS", key, address] + Fields(v)
    ensures Fields(Answer(s, key, address))[0] == "FAILED" <==> Lookup(s, key).None?
  {
    ReadAnswerText(s, key, address);
    assert Clean("FAILED") && Clean("SUCCESS");
    hide Answer, Fields, Sep, Clean, Lookup;
    match Lookup(s, key)
    case None => ThreeFields("FAILED", key, address);
    case Some(v) => FourFields("SUCCESS", key, address, v);
  }

  /** The answer to a write, in full. */
  lemma WriteAnswerText(s: Store, key: string, val: string, address: string)
    requires Clean(key)
    ensures Answer(s, Sep(key, val), address) == Sep("SUCCESS", Sep(key, address))
  {
    SliceInvertsIff(key, val);
    SuccessText(key, address);
    hide Slice, Sep, Success;
  }

  /** A write is answered SUCCESS, the key and the address, whatever was there and
      whatever the value. */
  lemma WriteAnswerFields(s: Store, key: string, val: string, address: string)
    requires Clean(key) && Clean(address)
    ensures Fields(Answer(s, Sep(key, val), address)) == ["SUCCESS", key, address]
  {
    WriteAnswerText(s, key, val, address);
    assert Clean("SUCCESS");
    hide Answer, Fields, Sep, Clean;
    ThreeFields("SUCCESS", key, address);
  }

  // ---------- requests are uses ----------

  /** The key a request names: all of it up to the first '#'. */
  function NamedKey(request: string): string {
    request[..FirstHash(request)]
  }

  /** The last request that names k, or -1. */
  function LastRequest(requests: seq<string>, k: string): int {
    if requests == [] then -1
    else if NamedKey(requests[|requests| - 1]) == k then |requests| - 1
    else LastRequest(requests[..|requests| - 1], k)
  }

  function ServeAll(capacity: int, requests: seq<string>): Store {
    if requests == [] then []
    else Serve(ServeAll(capacity, requests[..|requests| - 1]), capacity, requests[|requests| - 1])
  }

  function Uses(requests: seq<string>): (ops: seq<Op<string, string>>)
    ensures |ops| == |requests|
  {
    if requests == [] then []
    else Uses(requests[..|requests| - 1]) + [Use(requests[|requests| - 1])]
  }

  lemma {:induction false} ServingIsUsing(capacity: int, requests: seq<string>, k: string)
    ensures ServeAll(capacity, requests) == Recency.Run([], capacity, Uses(requests))
    ensures LastRequest(requests, k) == LastUse(Uses(requests), k)
    decreases |requests|
  {
    if requests == [] {
    } else {
      var before, last := requests[..|requests| - 1], requests[|requests| - 1];
      ServingIsUsing(capacity, before, k);
      assert Uses(requests)[..|requests| - 1] == Uses(before);
      assert Uses(requests)[|requests| - 1] == Use(last);
      assert last[..|last|] == last;
    }
  }

  /** On every sequence of requests, reads and writes alike, a resident key was
      asked for later than the ones behind it, which are thrown out first. */
  lemma ReadsKeepKeysYoung(capacity: int, requests: seq<string>, i: nat, j: nat)
    requires i < j < |ServeAll(capacity, requests)|
    ensures var s := ServeAll(capacity, requests);
            LastRequest(requests, s[i].key) > LastRequest(requests, s[j].key)
  {
    var s := ServeAll(capacity, requests);
    ServingIsUsing(capacity, requests, s[i].key);
    ServingIsUsing(capacity, requests, s[j].key);
    RunIsByLastUse([], capacity, Uses(requests));
  }
}
