/**
 Delivery as the mock Endpoint implements it (programs/endpoint-mock/src/instructions/oapp/runtime.rs): a message is
 authorized once per receiver and GUID, and cleared at most once.

 The hash is ideal: a digest is the pair it was computed from.
 */
module MockEndpoint {
  import opened Num

  datatype Params = Params(receiver: string, srcEid: nat, sender: string, nonce: u64, guid: string, message: string)

  datatype Digest = Digest(guid: string, message: string)

  /** The account created by `AuthorizeMessage`, whose address is derived from receiver and GUID. */
  datatype Authorized = Authorized(
    receiver: string, srcEid: nat, sender: string, nonce: u64, guid: string, payloadHash: Digest, consumed: bool)

  type Accounts = map<(string, string), Authorized>

  /** The registered applications and their delegates. */
  type Registry = map<string, string>

  function AddressOf(p: Params): (string, string) {
    (p.receiver, p.guid)
  }

  function AccountFor(p: Params): Authorized {
    Authorized(p.receiver, p.srcEid, p.sender, p.nonce, p.guid, Digest(p.guid, p.message), false)
  }

  /** The receiver's delegate signs, and the account is created, so it must not exist. */
  function AfterAuthorize(registry: Registry, a: Accounts, authority: string, p: Params): Option<Accounts> {
    if p.receiver !in registry || registry[p.receiver] != authority || AddressOf(p) in a then None
    else Some(a[AddressOf(p) := AccountFor(p)])
  }

  function AfterClear(registry: Registry, a: Accounts, signer: string, p: Params): Option<Accounts> {
    if p.receiver in registry && signer == p.receiver && AddressOf(p) in a && a[AddressOf(p)] == AccountFor(p)
    then Some(a[AddressOf(p) := AccountFor(p).(consumed := true)])
    else None
  }

  class Endpoint {
    var accounts: Accounts

    const registry: Registry

    constructor (delegates: Registry)
      ensures accounts == map[] && registry == delegates
    {
      accounts, registry := map[], delegates;
    }

    method AuthorizeMessage(authority: string, p: Params) returns (ok: bool)
      modifies this
      ensures ok <==> AfterAuthorize(registry, old(accounts), authority, p).Some?
      ensures accounts == if ok then AfterAuthorize(registry, old(accounts), authority, p).value else old(accounts)
    {
      if p.receiver !in registry || registry[p.receiver] != authority {
        return false;
      }
      if AddressOf(p) in accounts {
        return false;
      }
      accounts := accounts[AddressOf(p) := Authorized(p.receiver, p.srcEid, p.sender, p.nonce, p.guid,
                                                      Digest(p.guid, p.message), false)];
      return true;
    }

    /** `MockClear`: each mismatch fails on its own; success marks the message consumed. */
    method Clear(signer: string, p: Params) returns (payloadHash: Option<Digest>)
      modifies this
      ensures payloadHash.Some? <==> AfterClear(registry, old(accounts), signer, p).Some?
      ensures payloadHash.Some? ==> payloadHash.value == Digest(p.guid, p.message)
      ensures accounts == if payloadHash.Some? then AfterClear(registry, old(accounts), signer, p).value
                          else old(accounts)
    {
      if p.receiver !in registry || signer != p.receiver || AddressOf(p) !in accounts {
        return None;
      }
      var authorized := accounts[AddressOf(p)];
      var digest := Digest(p.guid, p.message);
      if authorized.consumed || authorized.receiver != p.receiver || authorized.srcEid != p.srcEid
         || authorized.sender != p.sender || authorized.nonce != p.nonce || authorized.guid != p.guid
         || authorized.payloadHash != digest {
        return None;
      }
      accounts := accounts[AddressOf(p) := authorized.(consumed := true)];
      return Some(digest);
    }
  }

  // ---------- runs ----------

  datatype Op = Authorize(authority: string, params: Params) | Clear(signer: string, params: Params)

  function Next(registry: Registry, a: Accounts, op: Op): Accounts {
    var r := match op
      case Authorize(authority, p) => AfterAuthorize(registry, a, authority, p)
      case Clear(signer, p) => AfterClear(registry, a, signer, p);
    if r.Some? then r.value else a
  }

  /** How often a run clears a message of this receiver and GUID. */
  function Clears(registry: Registry, a: Accounts, ops: seq<Op>, at: (string, string)): nat
    decreases |ops|
  {
    if ops == [] then 0
    else
      var op := ops[0];
      (if op.Clear? && AddressOf(op.params) == at && AfterClear(registry, a, op.signer, op.params).Some? then 1 else 0)
      + Clears(registry, Next(registry, a, op), ops[1..], at)
  }

  lemma {:induction false} ConsumedStays(registry: Registry, a: Accounts, ops: seq<Op>, at: (string, string))
    requires at in a && a[at].consumed
    ensures Clears(registry, a, ops, at) == 0
    decreases |ops|
  {
    if ops != [] {
      ConsumedStays(registry, Next(registry, a, ops[0]), ops[1..], at);
    }
  }

  /** Along every run, from any accounts, a receiver clears a GUID at most once. */
  lemma {:induction false} ClearedAtMostOnce(registry: Registry, a: Accounts, ops: seq<Op>, at: (string, string))
    ensures Clears(registry, a, ops, at) <= 1
    decreases |ops|
  {
    if ops != [] {
      var op := ops[0];
      if op.Clear? && AddressOf(op.params) == at && AfterClear(registry, a, op.signer, op.params).Some? {
        ConsumedStays(registry, Next(registry, a, op), ops[1..], at);
      } else {
        ClearedAtMostOnce(registry, Next(registry, a, op), ops[1..], at);
      }
    }
  }

  function Run(registry: Registry, a: Accounts, ops: seq<Op>): Accounts
    decreases |ops|
  {
    if ops == [] then a else Run(registry, Next(registry, a, ops[0]), ops[1..])
  }

  /** The step authorizes exactly this account, signed by the delegate of its receiver. */
  predicate Authorizes(registry: Registry, op: Op, account: Authorized) {
    && op.Authorize? && AccountFor(op.params) == account
    && op.params.receiver in registry && registry[op.params.receiver] == op.authority
  }

  /** An open account holds exactly what its receiver's delegate authorized. */
  ghost predicate Genuine(registry: Registry, a: Accounts, ops: seq<Op>) {
    forall at :: at in a && !a[at].consumed ==> exists i :: 0 <= i < |ops| && Authorizes(registry, ops[i], a[at])
  }

  lemma GenuineNext(registry: Registry, a: Accounts, ops: seq<Op>, op: Op)
    requires Genuine(registry, a, ops)
    ensures Genuine(registry, Next(registry, a, op), ops + [op])
  {
    var all := ops + [op];
    forall at | at in Next(registry, a, op) && !Next(registry, a, op)[at].consumed
      ensures exists i :: 0 <= i < |all| && Authorizes(registry, all[i], Next(registry, a, op)[at])
    {
      if at in a && a[at] == Next(registry, a, op)[at] {
        var i :| 0 <= i < |ops| && Authorizes(registry, ops[i], a[at]);
        assert all[i] == ops[i];
      } else {
        assert all[|ops|] == op;
      }
    }
  }

  lemma RunSnoc(registry: Registry, a: Accounts, ops: seq<Op>, op: Op)
    ensures Run(registry, a, ops + [op]) == Next(registry, Run(registry, a, ops), op)
    decreases |ops|
  {
    if ops != [] {
      assert (ops + [op])[1..] == ops[1..] + [op];
      RunSnoc(registry, Next(registry, a, ops[0]), ops[1..], op);
    }
  }

  lemma {:induction false} RunGenuine(registry: Registry, ops: seq<Op>)
    ensures Genuine(registry, Run(registry, map[], ops), ops)
    decreases |ops|
  {
    if ops != [] {
      var n := |ops| - 1;
      RunGenuine(registry, ops[..n]);
      RunSnoc(registry, map[], ops[..n], ops[n]);
      GenuineNext(registry, Run(registry, map[], ops[..n]), ops[..n], ops[n]);
      assert ops[..n] + [ops[n]] == ops;
    }
  }

  /**
   Only a message that its receiver's delegate authorized can be cleared, with every field as authorized, and only
   by the receiver.
   */
  lemma ClearedWasAuthorized(registry: Registry, ops: seq<Op>, signer: string, p: Params)
    requires AfterClear(registry, Run(registry, map[], ops), signer, p).Some?
    ensures signer == p.receiver && p.receiver in registry
    ensures exists i :: 0 <= i < |ops| && ops[i] == Authorize(registry[p.receiver], p)
  {
    RunGenuine(registry, ops);
    var i :| 0 <= i < |ops| && Authorizes(registry, ops[i], AccountFor(p));
    assert ops[i] == Authorize(registry[p.receiver], p);
  }

  // ---------- the accounts are the history ----------

  /** What the first authorization at this address, signed by the receiver's delegate, said. */
  function FirstAuthorized(registry: Registry, ops: seq<Op>, at: (string, string)): Option<Params> {
    if ops == [] then None
    else
      var earlier := FirstAuthorized(registry, ops[..|ops| - 1], at);
      var op := ops[|ops| - 1];
      if earlier.None? && op.Authorize? && (op.params.receiver, op.params.guid) == at
         && op.params.receiver in registry && registry[op.params.receiver] == op.authority
      then Some(op.params) else earlier
  }

  predicate Clearing(registry: Registry, ops: seq<Op>, i: nat, at: (string, string))
    requires i < |ops|
  {
    ops[i].Clear? && ops[i].signer == ops[i].params.receiver
    && FirstAuthorized(registry, ops[..i], at) == Some(ops[i].params)
  }

  /** The receiver itself repeated, field by field, what had been authorized. */
  predicate WasCleared(registry: Registry, ops: seq<Op>, at: (string, string)) {
    exists i :: 0 <= i < |ops| && Clearing(registry, ops, i, at)
  }

  lemma ClearedSnoc(registry: Registry, ops: seq<Op>, op: Op, at: (string, string))
    ensures WasCleared(registry, ops + [op], at)
            <==> WasCleared(registry, ops, at)
                 || (op.Clear? && op.signer == op.params.receiver
                     && FirstAuthorized(registry, ops, at) == Some(op.params))
  {
    var all := ops + [op];
    assert all[..|ops|] == ops;
    forall i | 0 <= i < |ops|
      ensures Clearing(registry, all, i, at) <==> Clearing(registry, ops, i, at)
    {
      assert all[..i] == ops[..i];
    }
    if WasCleared(registry, ops, at) {
      var i :| 0 <= i < |ops| && Clearing(registry, ops, i, at);
      assert Clearing(registry, all, i, at);
    }
    assert all[|ops|] == op && (Clearing(registry, all, |ops|, at) ==> WasCleared(registry, all, at));
    if WasCleared(registry, all, at) {
      var i :| 0 <= i < |all| && Clearing(registry, all, i, at);
      assert i < |ops| ==> Clearing(registry, ops, i, at);
    }
  }

  /** The account at an address holds what was first authorized there, and whether that was cleared. */
  predicate Recounts(registry: Registry, a: Accounts, ops: seq<Op>, at: (string, string)) {
    var p := FirstAuthorized(registry, ops, at);
    && (p.Some? ==> (p.value.receiver, p.value.guid) == at && p.value.receiver in registry)
    && if p.None? then at !in a
       else at in a && a[at] == AccountFor(p.value).(consumed := WasCleared(registry, ops, at))
  }

  lemma {:induction false} AuthorizedStays(registry: Registry, ops: seq<Op>, i: nat, at: (string, string))
    requires i <= |ops| && FirstAuthorized(registry, ops[..i], at).Some?
    ensures FirstAuthorized(registry, ops, at) == FirstAuthorized(registry, ops[..i], at)
    decreases |ops|
  {
    if i < |ops| {
      assert ops[..|ops| - 1][..i] == ops[..i];
      AuthorizedStays(registry, ops[..|ops| - 1], i, at);
    } else {
      assert ops[..i] == ops;
    }
  }

  lemma NothingCleared(registry: Registry, ops: seq<Op>, at: (string, string))
    requires FirstAuthorized(registry, ops, at).None?
    ensures !WasCleared(registry, ops, at)
  {
    if WasCleared(registry, ops, at) {
      var i :| 0 <= i < |ops| && Clearing(registry, ops, i, at);
      AuthorizedStays(registry, ops, i, at);
    }
  }

  lemma AuthorizeRecounts(registry: Registry, a: Accounts, ops: seq<Op>, op: Op, at: (string, string))
    requires Recounts(registry, a, ops, at) && op.Authorize?
    ensures Recounts(registry, Next(registry, a, op), ops + [op], at)
  {
    assert (ops + [op])[..|ops|] == ops;
    ClearedSnoc(registry, ops, op, at);
    if FirstAuthorized(registry, ops, at).None? {
      NothingCleared(registry, ops, at);
    }
  }

  lemma ClearRecounts(registry: Registry, a: Accounts, ops: seq<Op>, op: Op, at: (string, string))
    requires Recounts(registry, a, ops, at) && op.Clear?
    ensures Recounts(registry, Next(registry, a, op), ops + [op], at)
  {
    assert (ops + [op])[..|ops|] == ops;
    ClearedSnoc(registry, ops, op, at);
  }

  lemma {:induction false} RunRecounts(registry: Registry, ops: seq<Op>, at: (string, string))
    ensures Recounts(registry, Run(registry, map[], ops), ops, at)
    decreases |ops|
  {
    if ops != [] {
      var n := |ops| - 1;
      RunRecounts(registry, ops[..n], at);
      RunSnoc(registry, map[], ops[..n], ops[n]);
      assert ops[..n] + [ops[n]] == ops;
      if ops[n].Authorize? {
        AuthorizeRecounts(registry, Run(registry, map[], ops[..n]), ops[..n], ops[n], at);
      } else {
        ClearRecounts(registry, Run(registry, map[], ops[..n]), ops[..n], ops[n], at);
      }
    }
  }

  /**
   After every run, a message can be authorized exactly by the delegate of its receiver and if none was before; and
   it can be cleared exactly by its receiver, if it is what was authorized and was not cleared yet.
   */
  lemma EndpointAccepts(registry: Registry, ops: seq<Op>, signer: string, p: Params)
    ensures AfterAuthorize(registry, Run(registry, map[], ops), signer, p).Some?
            <==> && p.receiver in registry && registry[p.receiver] == signer
                 && FirstAuthorized(registry, ops, (p.receiver, p.guid)).None?
    ensures AfterClear(registry, Run(registry, map[], ops), signer, p).Some?
            <==> && signer == p.receiver && FirstAuthorized(registry, ops, (p.receiver, p.guid)) == Some(p)
                 && !WasCleared(registry, ops, (p.receiver, p.guid))
  {
    RunRecounts(registry, ops, (p.receiver, p.guid));
  }
}
