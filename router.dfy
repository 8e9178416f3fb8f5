/**
 * The session router: the idempotency check on a stored assignment, the
 * selection scan over one prefix of the mirror, and the batch delete of
 * assignment records.
 */
module Router {
  import opened Types

  /** The guard of the selection loop. The running minimum is never lowered, so it stays
      MaxInt32 and is part of the filter. */
  predicate Eligible(s: ServerInfo)
  {
    s.ClientCount < MaxInt32 && s.ClientCount < s.MaxClientCount
  }

  /** `order` is one iteration order of the map: every key exactly once. */
  predicate IsOrderOf(order: seq<string>, m: map<string, ServerInfo>)
  {
    && (forall i :: 0 <= i < |order| ==> order[i] in m)
    && (forall k :: k in m ==> k in order)
    && (forall i, j :: 0 <= i < j < |order| ==> order[i] != order[j])
  }

  // ---------------------------------------------------------------- selection as written

  /** The record the selection loop ends with: the last eligible one in iteration order. */
  function LastEligible(m: map<string, ServerInfo>, order: seq<string>): (r: Option<ServerInfo>)
    ensures r.Some? ==> Eligible(r.value) && exists i :: 0 <= i < |order| && order[i] in m && m[order[i]] == r.value
    ensures r.None? <==> forall i :: 0 <= i < |order| && order[i] in m ==> !Eligible(m[order[i]])
    decreases |order|
  {
    if |order| == 0 then None
    else
      var k := order[|order| - 1];
      if k in m && Eligible(m[k]) then Some(m[k])
      else LastEligible(m, order[..|order| - 1])
  }

  /** The scan picks the eligible record that comes last, whatever the loads of the others. */
  lemma {:induction false} LastEligibleIsLast(m: map<string, ServerInfo>, order: seq<string>, i: nat)
    requires i < |order| && order[i] in m && Eligible(m[order[i]])
    requires forall j :: i < j < |order| && order[j] in m ==> !Eligible(m[order[j]])
    ensures LastEligible(m, order) == Some(m[order[i]])
    decreases |order|
  {
    if i < |order| - 1 {
      var front := order[..|order| - 1];
      assert forall j :: i < j < |front| ==> front[j] == order[j];
      LastEligibleIsLast(m, front, i);
    }
  }

  /** The selection loop of GetBestServerInfo, over the map in the order given. */
  method ScanLastEligible(m: map<string, ServerInfo>, order: seq<string>) returns (best: Option<ServerInfo>)
    requires IsOrderOf(order, m)
    ensures best == LastEligible(m, order)
  {
    best := None;
    var minClientCount := MaxInt32;
    var i := 0;
    while i < |order|
      invariant 0 <= i <= |order|
      invariant best == LastEligible(m, order[..i])
    {
      var s := m[order[i]];
      if s.ClientCount < minClientCount && s.ClientCount < s.MaxClientCount {
        best := Some(s);
      }
      assert order[..i + 1][..i] == order[..i];
      i := i + 1;
    }
    assert order[..|order|] == order;
  }

  // ---------------------------------------------------------------- selection as intended

  /** Lexicographic order on code points; on valid UTF-8 this is Go's byte-wise string order. */
  function LexLess(a: string, b: string): bool
    decreases |a|
  {
    if |b| == 0 then false
    else if |a| == 0 then true
    else if a[0] != b[0] then a[0] < b[0]
    else LexLess(a[1..], b[1..])
  }

  lemma {:induction false} LexLessAsymmetric(a: string, b: string)
    ensures !(LexLess(a, b) && LexLess(b, a))
    decreases |a|
  {
    if |a| > 0 && |b| > 0 && a[0] == b[0] {
      LexLessAsymmetric(a[1..], b[1..]);
    }
  }

  lemma {:induction false} LexLessTotal(a: string, b: string)
    requires a != b
    ensures LexLess(a, b) || LexLess(b, a)
    decreases |a|
  {
    if |a| > 0 && |b| > 0 && a[0] == b[0] {
      assert a == [a[0]] + a[1..] && b == [b[0]] + b[1..];
      LexLessTotal(a[1..], b[1..]);
    }
  }

  lemma {:induction false} LexLessTransitive(a: string, b: string, c: string)
    requires LexLess(a, b) && LexLess(b, c)
    ensures LexLess(a, c)
    decreases |a|
  {
    if |a| > 0 && |b| > 0 && |c| > 0 && a[0] == b[0] && b[0] == c[0] {
      LexLessTransitive(a[1..], b[1..], c[1..]);
    }
  }

  /** Key k1 is preferred to key k2: fewer clients, ties broken by key. */
  predicate Before(m: map<string, ServerInfo>, k1: string, k2: string)
    requires k1 in m && k2 in m
  {
    m[k1].ClientCount < m[k2].ClientCount || (m[k1].ClientCount == m[k2].ClientCount && LexLess(k1, k2))
  }

  lemma BeforeTransitive(m: map<string, ServerInfo>, k1: string, k2: string, k3: string)
    requires k1 in m && k2 in m && k3 in m
    requires Before(m, k1, k2) && Before(m, k2, k3)
    ensures Before(m, k1, k3)
  {
    if m[k1].ClientCount == m[k2].ClientCount == m[k3].ClientCount {
      LexLessTransitive(k1, k2, k3);
    }
  }

  /** k is the least-loaded eligible record of m, the key breaking ties. */
  predicate IsLeast(m: map<string, ServerInfo>, k: string)
  {
    && k in m && Eligible(m[k])
    && forall k2 :: k2 in m && k2 != k && Eligible(m[k2]) ==> Before(m, k, k2)
  }

  /** The least-loaded choice is unique, so it does not depend on the iteration order. */
  lemma LeastIsUnique(m: map<string, ServerInfo>, k1: string, k2: string)
    requires IsLeast(m, k1) && IsLeast(m, k2)
    ensures k1 == k2
  {
    if k1 != k2 {
      assert Before(m, k1, k2) && Before(m, k2, k1);
      LexLessAsymmetric(k1, k2);
    }
  }

  /** The selection loop with the running minimum kept: the least-loaded eligible record. */
  method ScanLeastLoaded(m: map<string, ServerInfo>, order: seq<string>) returns (best: Option<string>)
    requires IsOrderOf(order, m)
    ensures best.Some? ==> IsLeast(m, best.value)
    ensures best.None? <==> forall k :: k in m ==> !Eligible(m[k])
  {
    best := None;
    var i := 0;
    while i < |order|
      invariant 0 <= i <= |order|
      invariant best.Some? ==> best.value in m && Eligible(m[best.value])
      invariant best.Some? ==> forall j :: 0 <= j < i && Eligible(m[order[j]]) && order[j] != best.value ==>
                                 Before(m, best.value, order[j])
      invariant best.None? ==> forall j :: 0 <= j < i ==> !Eligible(m[order[j]])
    {
      var k := order[i];
      if Eligible(m[k]) {
        if best.None? {
          best := Some(k);
        } else if Before(m, k, best.value) {
          var b := best.value;
          forall j | 0 <= j < i && Eligible(m[order[j]]) && order[j] != k
            ensures Before(m, k, order[j])
          {
            if order[j] != b {
              BeforeTransitive(m, k, b, order[j]);
            }
          }
          best := Some(k);
        } else if k != best.value {
          LexLessTotal(k, best.value);
        }
      }
      i := i + 1;
    }
    forall k2 | k2 in m
      ensures exists j :: 0 <= j < |order| && order[j] == k2
    {
      assert k2 in order;
    }
  }

  /** The bug, on three chat nodes loaded 10, 3 and 7 out of 100 and visited in that order:
      the scan as written picks the node with 7 clients although the node with 3 is eligible
      and less loaded. */
  lemma LastEligibleIsNotLeast()
    ensures var a := ServerInfo("a", "chatServer", "", "wa", "", 0, 10, 100, "ga");
      var b := ServerInfo("b", "chatServer", "", "wb", "", 0, 3, 100, "gb");
      var c := ServerInfo("c", "chatServer", "", "wc", "", 0, 7, 100, "gc");
      var m := map["a" := a, "b" := b, "c" := c];
      && IsOrderOf(["a", "b", "c"], m)
      && LastEligible(m, ["a", "b", "c"]) == Some(c)
      && IsLeast(m, "b")
      && !IsLeast(m, "c")
  {
    var a := ServerInfo("a", "chatServer", "", "wa", "", 0, 10, 100, "ga");
    var b := ServerInfo("b", "chatServer", "", "wb", "", 0, 3, 100, "gb");
    var c := ServerInfo("c", "chatServer", "", "wc", "", 0, 7, 100, "gc");
    var m := map["a" := a, "b" := b, "c" := c];
    var order := ["a", "b", "c"];
    assert m.Keys == {"a", "b", "c"};
    LastEligibleIsLast(m, order, 2);
    assert IsLeast(m, "b");
    assert !Before(m, "c", "b");
  }

  // ---------------------------------------------------------------- idempotency and routing

  /** The authoritative read of a server's record: the read failed, the value did not parse, or the record. */
  datatype AuthRead = ReadFailed | ParseFailed | ReadOk(record: ServerInfo)

  datatype RouteError =
    | AuthReadFailed                 // etcd.Read of the assigned server's key failed
    | AuthParseFailed                // its value did not parse
    | NoServer(message: string)      // "No <T> server to alloc"
    | AssignmentWriteFailed          // MarshalKey of the new assignment failed

  datatype Reply = Reply(name: string, wsAddr: string)

  /** GetBestServerInfo's pair of results: the reply values and the error. */
  datatype Outcome = Outcome(reply: Option<Reply>, err: Option<RouteError>)

  datatype RouteResult = RouteResult(out: Outcome, ops: seq<StoreOp>)

  /** What the stored assignment decides, before any scan. */
  datatype Decision =
    | Reuse(name: string, wsAddr: string)   // same incarnation: return the stored assignment
    | Fail(err: RouteError)                 // the authoritative read failed
    | DeleteAndFresh(stale: string)         // restarted server: drop the assignment, then select
    | Fresh                                 // no usable assignment: select

  /** The idempotency check. `readAssignment` is the directory's assignment record at a key
      (None when it cannot be read or parsed); `readRecord` is the authoritative read of a key. */
  function Decide(key: Option<string>, readAssignment: string -> Option<ServerInfo>,
                  readRecord: string -> AuthRead): (d: Decision)
    ensures key.None? || readAssignment(key.value).None? ==> d == Fresh
    ensures key.Some? && readAssignment(key.value).Some? ==>
      var a := readAssignment(key.value).value;
      match readRecord(GetEtcdClientKey(a))
      case ReadFailed => d == Fail(AuthReadFailed)
      case ParseFailed => d == Fail(AuthParseFailed)
      case ReadOk(t) => d == (if t.GlobalId == a.GlobalId then Reuse(a.Name, a.WSAddr) else DeleteAndFresh(key.value))
  {
    match key
    case None => Fresh
    case Some(k) =>
      match readAssignment(k)
      case None => Fresh
      case Some(a) =>
        match readRecord(GetEtcdClientKey(a))
        case ReadFailed => Fail(AuthReadFailed)
        case ParseFailed => Fail(AuthParseFailed)
        case ReadOk(t) => if t.GlobalId == a.GlobalId then Reuse(a.Name, a.WSAddr) else DeleteAndFresh(k)
  }

  /** The key the new assignment is written at: "" when the caller gave none. */
  function AssignmentKey(key: Option<string>): string
  {
    match key case None => "" case Some(k) => k
  }

  function NoServerMessage(serverType: string): string
  {
    "No " + serverType + " server to alloc"
  }

  /** Fresh selection over the mirror's map for `serverType` and the assignment write. */
  function FreshSelect(snapshot: map<string, map<string, ServerInfo>>, serverType: string,
                       assignKey: string, writeOk: bool, order: seq<string>): (r: RouteResult)
    ensures r.out.reply.Some? ==>
      && serverType in snapshot
      && (exists k :: k in snapshot[serverType] && Eligible(snapshot[serverType][k])
            && r.out.reply.value == Reply(snapshot[serverType][k].Name, snapshot[serverType][k].WSAddr)
            && r.ops == [Put(assignKey, snapshot[serverType][k])])
      && r.out.err == (if writeOk then None else Some(AssignmentWriteFailed))
    ensures r.out.reply.None? ==> r.out.err == Some(NoServer(NoServerMessage(serverType))) && r.ops == []
    ensures serverType !in snapshot ==> r.out.reply.None?
    ensures serverType in snapshot ==>
      (r.out.reply.None? <==> forall i :: 0 <= i < |order| && order[i] in snapshot[serverType] ==>
                                 !Eligible(snapshot[serverType][order[i]]))
    ensures serverType in snapshot && IsOrderOf(order, snapshot[serverType]) ==>
      (r.out.reply.None? <==> forall k :: k in snapshot[serverType] ==> !Eligible(snapshot[serverType][k]))
  {
    var best := if serverType in snapshot then LastEligible(snapshot[serverType], order) else None;
    match best
    case None => RouteResult(Outcome(None, Some(NoServer(NoServerMessage(serverType)))), [])
    case Some(s) =>
      RouteResult(Outcome(Some(Reply(s.Name, s.WSAddr)), if writeOk then None else Some(AssignmentWriteFailed)),
                  [Put(assignKey, s)])
  }

  /** GetBestServerInfo: the idempotency decision, then fresh selection where it falls through. */
  function Route(snapshot: map<string, map<string, ServerInfo>>, serverType: string, key: Option<string>,
                 readAssignment: string -> Option<ServerInfo>, readRecord: string -> AuthRead,
                 writeOk: bool, order: seq<string>): (r: RouteResult)
    ensures Decide(key, readAssignment, readRecord).Reuse? ==> r.ops == [] && r.out.err.None?
    ensures Decide(key, readAssignment, readRecord).Fail? ==> r.ops == [] && r.out.reply.None?
    ensures var d := Decide(key, readAssignment, readRecord);
      d.Reuse? ==> r.out == Outcome(Some(Reply(d.name, d.wsAddr)), None)
    ensures Decide(key, readAssignment, readRecord).Fresh? ==>
      r == FreshSelect(snapshot, serverType, AssignmentKey(key), writeOk, order)
    ensures var d := Decide(key, readAssignment, readRecord);
      var f := FreshSelect(snapshot, serverType, AssignmentKey(key), writeOk, order);
      d.DeleteAndFresh? ==> r.out == f.out && r.ops == [Delete(d.stale)] + f.ops
  {
    match Decide(key, readAssignment, readRecord)
    case Reuse(n, w) => RouteResult(Outcome(Some(Reply(n, w)), None), [])
    case Fail(e) => RouteResult(Outcome(None, Some(e)), [])
    case DeleteAndFresh(stale) =>
      var f := FreshSelect(snapshot, serverType, AssignmentKey(key), writeOk, order);
      RouteResult(f.out, [Delete(stale)] + f.ops)
    case Fresh => FreshSelect(snapshot, serverType, AssignmentKey(key), writeOk, order)
  }

  /** Unless a still-valid assignment is reused, a returned server is an eligible record of the
      requested type, and its reply is that record's name and client address. */
  lemma RouteSelectsEligible(snapshot: map<string, map<string, ServerInfo>>, serverType: string, key: Option<string>,
                             readAssignment: string -> Option<ServerInfo>, readRecord: string -> AuthRead,
                             writeOk: bool, order: seq<string>)
    requires !Decide(key, readAssignment, readRecord).Reuse?
    requires Route(snapshot, serverType, key, readAssignment, readRecord, writeOk, order).out.reply.Some?
    ensures var reply := Route(snapshot, serverType, key, readAssignment, readRecord, writeOk, order).out.reply.value;
      serverType in snapshot
      && exists k :: k in snapshot[serverType] && Eligible(snapshot[serverType][k])
           && reply == Reply(snapshot[serverType][k].Name, snapshot[serverType][k].WSAddr)
  {
    var f := FreshSelect(snapshot, serverType, AssignmentKey(key), writeOk, order);
    assert Route(snapshot, serverType, key, readAssignment, readRecord, writeOk, order).out == f.out;
  }

  /** A retried request: the first call assigned a server afresh and wrote the assignment at `key`;
      when the directory returns that record and its incarnation id is unchanged, the second call
      returns the same server, without a scan and without directory writes. */
  lemma RetryReturnsSameServer(snapshot: map<string, map<string, ServerInfo>>, serverType: string, key: string,
                               readAssignment: string -> Option<ServerInfo>, readRecord: string -> AuthRead,
                               writeOk: bool, order: seq<string>,
                               snapshot2: map<string, map<string, ServerInfo>>,
                               readAssignment2: string -> Option<ServerInfo>, readRecord2: string -> AuthRead,
                               writeOk2: bool, order2: seq<string>, current: ServerInfo)
    requires !Decide(Some(key), readAssignment, readRecord).Reuse?
    requires var first := Route(snapshot, serverType, Some(key), readAssignment, readRecord, writeOk, order);
      first.out.reply.Some? && |first.ops| > 0 && first.ops[|first.ops| - 1].Put?
      && readAssignment2(key) == Some(first.ops[|first.ops| - 1].record)
      && readRecord2(GetEtcdClientKey(first.ops[|first.ops| - 1].record)) == ReadOk(current)
      && current.GlobalId == first.ops[|first.ops| - 1].record.GlobalId
    ensures var first := Route(snapshot, serverType, Some(key), readAssignment, readRecord, writeOk, order);
      var second := Route(snapshot2, serverType, Some(key), readAssignment2, readRecord2, writeOk2, order2);
      second.out == Outcome(first.out.reply, None) && second.ops == []
  {
    var f := FreshSelect(snapshot, serverType, key, writeOk, order);
    var first := Route(snapshot, serverType, Some(key), readAssignment, readRecord, writeOk, order);
    assert first.out == f.out;
    assert first.ops[|first.ops| - 1] == f.ops[0];
  }

  /** A restarted server: its incarnation id no longer matches the stored one, so the stale
      assignment is deleted first and the result is that of fresh selection. */
  lemma RestartDiscardsAssignment(snapshot: map<string, map<string, ServerInfo>>, serverType: string, key: string,
                                  readAssignment: string -> Option<ServerInfo>, readRecord: string -> AuthRead,
                                  writeOk: bool, order: seq<string>, stored: ServerInfo, current: ServerInfo)
    requires readAssignment(key) == Some(stored)
    requires readRecord(GetEtcdClientKey(stored)) == ReadOk(current)
    requires current.GlobalId != stored.GlobalId
    ensures var r := Route(snapshot, serverType, Some(key), readAssignment, readRecord, writeOk, order);
      var f := FreshSelect(snapshot, serverType, key, writeOk, order);
      r.ops == [Delete(key)] + f.ops && r.out == f.out
  {
  }

  /** A failed authoritative read is returned to the caller as an error; nothing is selected. */
  lemma AuthFailureIsError(snapshot: map<string, map<string, ServerInfo>>, serverType: string, key: string,
                           readAssignment: string -> Option<ServerInfo>, readRecord: string -> AuthRead,
                           writeOk: bool, order: seq<string>, stored: ServerInfo)
    requires readAssignment(key) == Some(stored)
    requires !readRecord(GetEtcdClientKey(stored)).ReadOk?
    ensures var r := Route(snapshot, serverType, Some(key), readAssignment, readRecord, writeOk, order);
      r.out.reply.None? && r.ops == []
      && r.out.err == Some(if readRecord(GetEtcdClientKey(stored)).ReadFailed? then AuthReadFailed else AuthParseFailed)
  {
  }

  /** Without a key, a fresh assignment is still written, at the empty key. */
  lemma NoKeyWritesEmptyKey(snapshot: map<string, map<string, ServerInfo>>, serverType: string,
                            readAssignment: string -> Option<ServerInfo>, readRecord: string -> AuthRead,
                            writeOk: bool, order: seq<string>)
    requires Route(snapshot, serverType, None, readAssignment, readRecord, writeOk, order).out.reply.Some?
    ensures var r := Route(snapshot, serverType, None, readAssignment, readRecord, writeOk, order);
      |r.ops| == 1 && r.ops[0].Put? && r.ops[0].key == ""
  {
  }

  /** Every chat node full: the request fails with "No chatServer server to alloc". */
  lemma AllFullIsNoServer(readAssignment: string -> Option<ServerInfo>, readRecord: string -> AuthRead, writeOk: bool)
    ensures var a := ServerInfo("a", "chatServer", "", "wa", "", 0, 100, 100, "ga");
      var b := ServerInfo("b", "chatServer", "", "wb", "", 0, 50, 50, "gb");
      var snapshot := map["chatServer" := map["chatServer/a" := a, "chatServer/b" := b]];
      var r := Route(snapshot, "chatServer", None, readAssignment, readRecord, writeOk, ["chatServer/a", "chatServer/b"]);
      r.out == Outcome(None, Some(NoServer("No chatServer server to alloc"))) && r.ops == []
  {
    var a := ServerInfo("a", "chatServer", "", "wa", "", 0, 100, 100, "ga");
    var b := ServerInfo("b", "chatServer", "", "wb", "", 0, 50, 50, "gb");
    var m := map["chatServer/a" := a, "chatServer/b" := b];
    var snapshot := map["chatServer" := m];
    var order := ["chatServer/a", "chatServer/b"];
    assert LastEligible(m, order) == None;
    assert NoServerMessage("chatServer") == "No chatServer server to alloc";
    assert FreshSelect(snapshot, "chatServer", "", writeOk, order).out.reply.None?;
  }

  // ---------------------------------------------------------------- batch delete

  /** The number of failed outcomes in a batch. */
  function CountFailed(failed: seq<bool>): (n: nat)
    ensures n <= |failed|
    decreases |failed|
  {
    if |failed| == 0 then 0
    else CountFailed(failed[..|failed| - 1]) + (if failed[|failed| - 1] then 1 else 0)
  }

  /** The keys whose delete failed, in batch order: each is logged. */
  function FailedKeys(keys: seq<string>, failed: seq<bool>): (r: seq<string>)
    requires |failed| == |keys|
    ensures |r| == CountFailed(failed)
    ensures forall i :: 0 <= i < |keys| && failed[i] ==> keys[i] in r
    ensures forall k :: k in r ==> exists i :: 0 <= i < |keys| && keys[i] == k && failed[i]
    decreases |keys|
  {
    if |keys| == 0 then []
    else FailedKeys(keys[..|keys| - 1], failed[..|keys| - 1]) + (if failed[|keys| - 1] then [keys[|keys| - 1]] else [])
  }

  /** DelServerInfo: a delete is issued for every key of the batch, in order, whatever the
      earlier deletes returned; `failed[i]` is the outcome of the i-th delete. */
  method DelServerInfo(keys: seq<string>, failed: seq<bool>) returns (ops: seq<StoreOp>, logged: seq<string>)
    requires |failed| == |keys|
    ensures |ops| == |keys| && forall i :: 0 <= i < |keys| ==> ops[i] == Delete(keys[i])
    ensures logged == FailedKeys(keys, failed)
  {
    ops, logged := [], [];
    var i := 0;
    while i < |keys|
      invariant 0 <= i <= |keys|
      invariant |ops| == i && forall j :: 0 <= j < i ==> ops[j] == Delete(keys[j])
      invariant logged == FailedKeys(keys[..i], failed[..i])
    {
      ops := ops + [Delete(keys[i])];
      if failed[i] {
        logged := logged + [keys[i]];
      }
      assert keys[..i + 1][..i] == keys[..i] && failed[..i + 1][..i] == failed[..i];
      i := i + 1;
    }
    assert keys[..|keys|] == keys && failed[..|failed|] == failed;
  }
}
