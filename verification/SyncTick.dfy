/**
 One scheduler tick: sync every connected vendor of every readable workspace, isolating failures.
 */
module SyncTick {
  import opened Options

  datatype Vendor = SHOPIFY | META | GOOGLE

  datatype Outcome = Synced | NotConnected | Error | Throws

  datatype Call = Call(workspace: string, vendor: Vendor)

  /** What reading the connected vendors of each workspace gives; None when the read throws. */
  type Found = seq<Option<seq<Vendor>>>

  function VendorsOf(read: Option<seq<Vendor>>): seq<Vendor> {
    if read.Some? then read.value else []
  }

  function CallsFor(workspace: string, vendors: seq<Vendor>): (calls: seq<Call>)
    ensures |calls| == |vendors| && forall j :: 0 <= j < |vendors| ==> calls[j] == Call(workspace, vendors[j])
  {
    seq(|vendors|, j requires 0 <= j < |vendors| => Call(workspace, vendors[j]))
  }

  function AllCalls(workspaces: seq<string>, found: Found): seq<Call>
    requires |found| == |workspaces|
  {
    if workspaces == [] then []
    else
      var n := |workspaces| - 1;
      AllCalls(workspaces[..n], found[..n]) + CallsFor(workspaces[n], VendorsOf(found[n]))
  }

  /** How many of the first n calls end as k; what the nth call meets may depend on all before it. */
  function Tally(outcome: nat -> Outcome, n: nat, k: Outcome): nat {
    if n == 0 then 0 else Tally(outcome, n - 1, k) + if outcome(n - 1) == k then 1 else 0
  }

  lemma {:induction false} EveryCallEndsOneWay(outcome: nat -> Outcome, n: nat)
    ensures
      Tally(outcome, n, Synced) + Tally(outcome, n, NotConnected) +
      Tally(outcome, n, Error) + Tally(outcome, n, Throws) == n
  {
    if n > 0 { EveryCallEndsOneWay(outcome, n - 1); }
  }

  lemma TallyNext(outcome: nat -> Outcome, n: nat, k: Outcome)
    ensures Tally(outcome, n + 1, k) == Tally(outcome, n, k) + if outcome(n) == k then 1 else 0
  {
  }

  lemma AllCallsNext(workspaces: seq<string>, found: Found, i: nat)
    requires |found| == |workspaces| && i < |workspaces|
    ensures AllCalls(workspaces[..i + 1], found[..i + 1]) ==
            AllCalls(workspaces[..i], found[..i]) + CallsFor(workspaces[i], VendorsOf(found[i]))
  {
    hide CallsFor, VendorsOf;
    assert workspaces[..i + 1][..i] == workspaces[..i] && found[..i + 1][..i] == found[..i];
  }

  lemma NothingYet(outcome: nat -> Outcome)
    ensures AllCalls([], []) == [] && forall k :: Tally(outcome, 0, k) == 0
  {
  }

  /**
   The tick calls sync for exactly the enumerated vendors, in order, whatever fails on the way, and
   its three counters count what happened; a vendor found disconnected is no attempt.
   */
  method RunSchedulerTick(workspaces: seq<string>, found: Found, outcome: nat -> Outcome)
    returns (calls: seq<Call>, attempted: int, succeeded: int, failed: int)
    requires |found| == |workspaces|
    ensures calls == AllCalls(workspaces, found)
    ensures succeeded == Tally(outcome, |calls|, Synced)
    ensures failed == Tally(outcome, |calls|, Error) + Tally(outcome, |calls|, Throws)
    ensures attempted == |calls| - Tally(outcome, |calls|, NotConnected)
    ensures attempted == succeeded + failed
  {
    hide AllCalls, CallsFor, Tally;
    calls, attempted, succeeded, failed := [], 0, 0, 0;
    NothingYet(outcome);
    for i := 0 to |workspaces|
      invariant calls == AllCalls(workspaces[..i], found[..i])
      invariant succeeded == Tally(outcome, |calls|, Synced)
      invariant failed == Tally(outcome, |calls|, Error) + Tally(outcome, |calls|, Throws)
      invariant attempted == |calls| - Tally(outcome, |calls|, NotConnected)
    {
      AllCallsNext(workspaces, found, i);
      if found[i].None? {
        continue;
      }
      var connected := found[i].value;
      ghost var before := calls;
      for j := 0 to |connected|
        invariant calls == before + CallsFor(workspaces[i], connected)[..j]
        invariant succeeded == Tally(outcome, |calls|, Synced)
        invariant failed == Tally(outcome, |calls|, Error) + Tally(outcome, |calls|, Throws)
        invariant attempted == |calls| - Tally(outcome, |calls|, NotConnected)
      {
        attempted := attempted + 1;
        var result := outcome(|calls|);
        forall k { TallyNext(outcome, |calls|, k); }
        calls := calls + [Call(workspaces[i], connected[j])];
        match result
        case Synced => succeeded := succeeded + 1;
        case NotConnected => attempted := attempted - 1;
        case Error => failed := failed + 1;
        case Throws => failed := failed + 1;
      }
    }
    assert workspaces[..|workspaces|] == workspaces && found[..|found|] == found;
    EveryCallEndsOneWay(outcome, |calls|);
  }

  /** The number of calls due before workspace i. */
  function CallsBefore(found: Found, i: nat): nat
    requires i <= |found|
  {
    if i == 0 then 0 else CallsBefore(found, i - 1) + if found[i - 1].Some? then |found[i - 1].value| else 0
  }

  lemma {:induction false} CallsBeforePrefix(found: Found, n: nat, i: nat)
    requires i <= n <= |found|
    ensures CallsBefore(found[..n], i) == CallsBefore(found, i)
  {
    if i > 0 { CallsBeforePrefix(found, n, i - 1); }
  }

  lemma {:induction false} AsManyCalls(workspaces: seq<string>, found: Found)
    requires |found| == |workspaces|
    ensures |AllCalls(workspaces, found)| == CallsBefore(found, |found|)
  {
    if workspaces != [] {
      var n := |workspaces| - 1;
      AsManyCalls(workspaces[..n], found[..n]);
      CallsBeforePrefix(found, n, n);
    }
  }

  /** Each enumerated vendor has its own place in the call list, and there are no other places. */
  lemma {:induction false} EveryVendorOnce(workspaces: seq<string>, found: Found, i: nat, j: nat)
    requires |found| == |workspaces| && i < |found| && found[i].Some? && j < |found[i].value|
    ensures |AllCalls(workspaces, found)| == CallsBefore(found, |found|)
    ensures CallsBefore(found, i) + j < CallsBefore(found, i + 1) <= CallsBefore(found, |found|)
    ensures AllCalls(workspaces, found)[CallsBefore(found, i) + j] == Call(workspaces[i], found[i].value[j])
    decreases |found|
  {
    hide CallsFor;
    var n := |workspaces| - 1;
    AsManyCalls(workspaces, found);
    AsManyCalls(workspaces[..n], found[..n]);
    CallsBeforePrefix(found, n, n);
    if i < n {
      assert found[..n][i] == found[i];
      CallsBeforePrefix(found, n, i);
      CallsBeforePrefix(found, n, i + 1);
      EveryVendorOnce(workspaces[..n], found[..n], i, j);
    }
  }
}
