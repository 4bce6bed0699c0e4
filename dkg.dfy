/**
 * The simulated distributed key generation: n participants run, one after another, through
 * three rounds (commit, deal shares, complete), after which every finished bundle must report
 * the same group key. Rounds 2 and 3 visit the participants in an unspecified order (the
 * program iterates over a HashMap); here they pick from a set of participants still to do.
 */
module Dkg {
  import opened Wrappers
  import opened BoundedInts
  import opened Frost

  /** The participant indices 1..n. */
  function Participants(n: uint16): (ps: set<uint16>)
    ensures forall i: uint16 :: i in ps <==> 1 <= i <= n
  {
    if n == 0 then {} else Participants(n - 1) + {n}
  }

  lemma {:induction false} ParticipantsCount(n: uint16)
    ensures |Participants(n)| == n
  {
    if n > 0 {
      ParticipantsCount(n - 1);
      assert Participants(n) == Participants(n - 1) + {n};
    }
  }

  // ---------------------------------------------------------------- round 1: commit

  /** What the first loop leaves behind. */
  datatype Committed = Committed(
    params: map<uint16, Params>,
    machines: map<uint16, Machine>,
    commitments: map<uint16, Commitment>)

  /** Participant i's machine, created with its parameters, after generate_coefficients. */
  function Commit(lib: Library, t: uint16, n: uint16, i: uint16): Option<(Machine, Commitment)> {
    lib.generateCoefficients(lib.newMachine(Params(t, n, i), Context))
  }

  predicate CommitSucceeds(lib: Library, t: uint16, n: uint16) {
    && (n == 0 || 1 <= t <= n)
    && forall i :: i in Participants(n) ==> Commit(lib, t, n, i).Some?
  }

  function CommitSpec(lib: Library, t: uint16, n: uint16): Option<Committed> {
    if CommitSucceeds(lib, t, n) then
      Some(Committed(
        map i | i in Participants(n) :: Params(t, n, i),
        map i | i in Participants(n) :: Commit(lib, t, n, i).value.0,
        map i | i in Participants(n) :: Commit(lib, t, n, i).value.1))
    else None
  }

  method CommitRound(lib: Library, t: uint16, n: uint16) returns (r: Result<Committed>)
    ensures r.Ok? <==> CommitSucceeds(lib, t, n)
    ensures r == Err(InvalidParams) <==> n >= 1 && !(1 <= t <= n)
    ensures r.Err? ==> r.error == InvalidParams || r.error == CryptoFailure
    ensures r.Ok? ==> && r.value.params.Keys == Participants(n)
                      && r.value.machines.Keys == Participants(n)
                      && r.value.commitments.Keys == Participants(n)
    ensures r.Ok? ==> forall i :: i in Participants(n) ==>
                        && r.value.params[i] == Params(t, n, i)
                        && Commit(lib, t, n, i) == Some((r.value.machines[i], r.value.commitments[i]))
    ensures r.Ok? ==> CommitSpec(lib, t, n) == Some(r.value)
  {
    var params: map<uint16, Params> := map[];
    var machines: map<uint16, Machine> := map[];
    var commitments: map<uint16, Commitment> := map[];
    var i: nat := 1;
    while i <= n
      invariant 1 <= i <= n + 1
      invariant i > 1 ==> 1 <= t <= n
      invariant params.Keys == machines.Keys == commitments.Keys == Participants(i - 1)
      invariant forall j: uint16 :: 1 <= j < i ==>
                  params[j] == Params(t, n, j) && Commit(lib, t, n, j) == Some((machines[j], commitments[j]))
    {
      var p := NewParams(t, n, i);
      if p.None? {
        assert !CommitSucceeds(lib, t, n);
        return Err(InvalidParams);
      }
      params := params[i := p.value];
      machines := machines[i := lib.newMachine(params[i], Context)];
      var c := lib.generateCoefficients(machines[i]);
      if c.None? {
        assert Commit(lib, t, n, i).None?;
        return Err(CryptoFailure);
      }
      machines := machines[i := c.value.0];
      commitments := commitments[i := c.value.1];
      i := i + 1;
    }
    assert params == map j | j in Participants(n) :: Params(t, n, j);
    assert machines == map j | j in Participants(n) :: Commit(lib, t, n, j).value.0;
    assert commitments == map j | j in Participants(n) :: Commit(lib, t, n, j).value.1;
    r := Ok(Committed(params, machines, commitments));
  }

  // ---------------------------------------------------------------- round 2: deal shares

  /** The machines after round 2 and, per sender, its map from recipient to share. */
  datatype Dealt = Dealt(
    machines: map<uint16, Machine>,
    shares: map<uint16, map<uint16, SecretShare>>)

  predicate DealSucceeds(lib: Library, machines: map<uint16, Machine>, commitments: map<uint16, Commitment>) {
    forall l :: l in machines ==> lib.generateSecretShares(machines[l], commitments).Some?
  }

  function DealSpec(lib: Library, machines: map<uint16, Machine>, commitments: map<uint16, Commitment>): Option<Dealt> {
    if DealSucceeds(lib, machines, commitments) then
      Some(Dealt(
        map l | l in machines :: lib.generateSecretShares(machines[l], commitments).value.0,
        map l | l in machines :: lib.generateSecretShares(machines[l], commitments).value.1))
    else None
  }

  /** Every machine is handed the same, complete commitment map. */
  method DealRound(lib: Library, machines: map<uint16, Machine>, commitments: map<uint16, Commitment>)
    returns (r: Result<Dealt>)
    ensures r.Ok? <==> DealSucceeds(lib, machines, commitments)
    ensures r.Err? ==> r.error == CryptoFailure
    ensures r.Ok? ==> r.value.machines.Keys == machines.Keys && r.value.shares.Keys == machines.Keys
    ensures r.Ok? ==> forall l :: l in machines ==>
                        lib.generateSecretShares(machines[l], commitments) == Some((r.value.machines[l], r.value.shares[l]))
    ensures r.Ok? ==> DealSpec(lib, machines, commitments) == Some(r.value)
  {
    var updated := machines;
    var shares: map<uint16, map<uint16, SecretShare>> := map[];
    var todo := machines.Keys;
    while todo != {}
      invariant todo <= machines.Keys
      invariant updated.Keys == machines.Keys
      invariant forall l :: l in todo ==> updated[l] == machines[l]
      invariant shares.Keys == machines.Keys - todo
      invariant forall l :: l in shares ==>
                  lib.generateSecretShares(machines[l], commitments) == Some((updated[l], shares[l]))
      decreases todo
    {
      var l :| l in todo;
      var s := lib.generateSecretShares(updated[l], commitments);
      if s.None? {
        assert l !in shares;
        return Err(CryptoFailure);
      }
      updated := updated[l := s.value.0];
      shares := shares[l := s.value.1];
      todo := todo - {l};
    }
    assert DealSucceeds(lib, machines, commitments);
    ghost var spec := DealSpec(lib, machines, commitments).value;
    assert spec.machines == updated;
    assert spec.shares == shares;
    r := Ok(Dealt(updated, shares));
  }

  // ---------------------------------------------------------------- round 3: complete

  /** Every sender other than i has a share for i. */
  predicate Routable(shares: map<uint16, map<uint16, SecretShare>>, i: uint16) {
    forall l :: l in shares && l != i ==> i in shares[l]
  }

  /** The shares addressed to i, by sender. */
  function Routed(shares: map<uint16, map<uint16, SecretShare>>, i: uint16): map<uint16, SecretShare>
    requires Routable(shares, i)
  {
    map l | l in shares && l != i :: shares[l][i]
  }

  /** Collects, from every other sender, the share it addressed to participant i. */
  method Route(shares: map<uint16, map<uint16, SecretShare>>, i: uint16) returns (r: Result<map<uint16, SecretShare>>)
    ensures r.Ok? <==> Routable(shares, i)
    ensures r.Err? ==> r.error == MissingShare
    ensures r.Ok? ==> r.value.Keys == shares.Keys - {i}
    ensures r.Ok? ==> forall l :: l in r.value ==> r.value[l] == shares[l][i]
    ensures r.Ok? ==> r.value == Routed(shares, i)
  {
    var ours: map<uint16, SecretShare> := map[];
    var todo := shares.Keys;
    while todo != {}
      invariant todo <= shares.Keys
      invariant ours.Keys == shares.Keys - todo - {i}
      invariant forall l :: l in ours ==> i in shares[l] && ours[l] == shares[l][i]
      invariant forall l :: l in shares.Keys - todo && l != i ==> i in shares[l]
      decreases todo
    {
      var l :| l in todo;
      todo := todo - {l};
      if l == i {
        continue;
      }
      if i !in shares[l] {
        return Err(MissingShare);
      }
      ours := ours[l := shares[l][i]];
    }
    r := Ok(ours);
  }

  /** Participant i's finished bundle, if its shares can be routed and complete succeeds. */
  function Finish(lib: Library, d: Dealt, i: uint16): Option<Keys>
    requires i in d.machines
  {
    if Routable(d.shares, i) then lib.complete(d.machines[i], Routed(d.shares, i)) else None
  }

  predicate FinishSucceeds(lib: Library, d: Dealt) {
    forall i :: i in d.machines ==> Finish(lib, d, i).Some?
  }

  function Finished(lib: Library, d: Dealt): map<uint16, Keys>
    requires FinishSucceeds(lib, d)
  {
    map i | i in d.machines :: Finish(lib, d, i).value
  }

  /** All bundles report one group key. */
  predicate Agree(lib: Library, keys: map<uint16, Keys>) {
    forall i, j :: i in keys && j in keys ==> lib.groupKey(keys[i]) == lib.groupKey(keys[j])
  }

  /**
   * Completes every machine with the shares addressed to it and checks each bundle's group key
   * against the first bundle's; it succeeds exactly when every completion does and all group
   * keys agree, whatever the order of the participants.
   */
  method FinishRound(lib: Library, d: Dealt) returns (r: Result<map<uint16, Keys>>)
    ensures r.Ok? <==> FinishSucceeds(lib, d) && Agree(lib, Finished(lib, d))
    ensures r.Err? ==> r.error in {MissingShare, CryptoFailure, GroupKeyMismatch}
    ensures r.Ok? ==> r.value.Keys == d.machines.Keys && Agree(lib, r.value)
    ensures r.Ok? ==> r.value == Finished(lib, d)
    ensures FinishSucceeds(lib, d) && !Agree(lib, Finished(lib, d)) ==> r == Err(GroupKeyMismatch)
    ensures r == Err(MissingShare) ==> exists i :: i in d.machines && !Routable(d.shares, i)
    ensures r == Err(CryptoFailure) ==>
              exists i :: i in d.machines && Routable(d.shares, i) && lib.complete(d.machines[i], Routed(d.shares, i)).None?
    ensures r == Err(GroupKeyMismatch) ==>
              exists i, j :: && i in d.machines && j in d.machines
                             && Finish(lib, d, i).Some? && Finish(lib, d, j).Some?
                             && lib.groupKey(Finish(lib, d, i).value) != lib.groupKey(Finish(lib, d, j).value)
  {
    var groupKey: Option<GroupKey> := None;
    var keys: map<uint16, Keys> := map[];
    var todo := d.machines.Keys;
    while todo != {}
      invariant todo <= d.machines.Keys
      invariant keys.Keys == d.machines.Keys - todo
      invariant forall i :: i in keys ==> Finish(lib, d, i) == Some(keys[i])
      invariant groupKey.Some? <==> keys != map[]
      invariant groupKey.Some? ==> forall i :: i in keys ==> lib.groupKey(keys[i]) == groupKey.value
      decreases todo
    {
      var i :| i in todo;
      var ours := Route(d.shares, i);
      if ours.Err? {
        assert Finish(lib, d, i).None?;
        return Err(ours.error);
      }
      var these := lib.complete(d.machines[i], ours.value);
      if these.None? {
        assert Finish(lib, d, i).None?;
        return Err(CryptoFailure);
      }
      if groupKey.None? {
        groupKey := Some(lib.groupKey(these.value));
      }
      if groupKey.value != lib.groupKey(these.value) {
        ghost var j :| j in keys;
        assert lib.groupKey(keys[j]) != lib.groupKey(these.value);
        assert FinishSucceeds(lib, d) ==>
                 Finished(lib, d)[i] == these.value && Finished(lib, d)[j] == keys[j];
        return Err(GroupKeyMismatch);
      }
      keys := keys[i := these.value];
      todo := todo - {i};
    }
    r := Ok(keys);
  }

  // ---------------------------------------------------------------- the whole batch

  /** The bundles of a batch that runs to the end, or None when any step aborts it. */
  function KeyGenSpec(lib: Library, t: uint16, n: uint16): Option<map<uint16, Keys>> {
    match CommitSpec(lib, t, n)
    case None => None
    case Some(c) =>
      match DealSpec(lib, c.machines, c.commitments)
      case None => None
      case Some(d) =>
        if FinishSucceeds(lib, d) && Agree(lib, Finished(lib, d)) then Some(Finished(lib, d)) else None
  }

  /** key_gen: the three rounds in turn; any failure aborts the batch and no bundle is returned. */
  method KeyGen(lib: Library, t: uint16, n: uint16) returns (r: Result<map<uint16, Keys>>)
    ensures r.Ok? <==> KeyGenSpec(lib, t, n).Some?
    ensures r.Ok? ==> KeyGenSpec(lib, t, n) == Some(r.value)
    ensures r.Ok? ==> r.value.Keys == Participants(n) && Agree(lib, r.value)
    ensures r == Err(InvalidParams) <==> n >= 1 && !(1 <= t <= n)
    ensures r.Err? ==> r.error in {InvalidParams, CryptoFailure, MissingShare, GroupKeyMismatch}
    ensures CommitSpec(lib, t, n).Some? ==>
              var c := CommitSpec(lib, t, n).value;
              DealSpec(lib, c.machines, c.commitments).Some? ==>
                var d := DealSpec(lib, c.machines, c.commitments).value;
                && (FinishSucceeds(lib, d) && !Agree(lib, Finished(lib, d)) ==> r == Err(GroupKeyMismatch))
                && (r == Err(MissingShare) ==> exists i :: i in d.machines && !Routable(d.shares, i))
                && (r == Err(CryptoFailure) ==>
                      exists i :: && i in d.machines && Routable(d.shares, i)
                                  && lib.complete(d.machines[i], Routed(d.shares, i)).None?)
                && (r == Err(GroupKeyMismatch) ==>
                      exists i, j :: && i in d.machines && j in d.machines
                                     && Finish(lib, d, i).Some? && Finish(lib, d, j).Some?
                                     && lib.groupKey(Finish(lib, d, i).value) != lib.groupKey(Finish(lib, d, j).value))
  {
    var committed := CommitRound(lib, t, n);
    if committed.Err? {
      return Err(committed.error);
    }
    var dealt := DealRound(lib, committed.value.machines, committed.value.commitments);
    if dealt.Err? {
      return Err(dealt.error);
    }
    r := FinishRound(lib, dealt.value);
  }

  // ---------------------------------------------------------------- properties of a finished batch

  /**
   * When round 3 completes every machine, participant i was completed with exactly one share
   * from each other sender (never its own): the share that sender addressed to i.
   */
  lemma FinishedRouting(lib: Library, d: Dealt, i: uint16)
    requires FinishSucceeds(lib, d)
    requires i in d.machines
    ensures Routable(d.shares, i)
    ensures Routed(d.shares, i).Keys == d.shares.Keys - {i}
    ensures forall l :: l in d.shares.Keys - {i} ==> Routed(d.shares, i)[l] == d.shares[l][i]
    ensures lib.complete(d.machines[i], Routed(d.shares, i)) == Some(Finished(lib, d)[i])
  {
    assert Finish(lib, d, i).Some?;
  }

  /** A batch that runs to the end returns round 3's bundles, one per participant 1..n. */
  lemma KeyGenFinished(lib: Library, t: uint16, n: uint16, c: Committed, d: Dealt)
    requires CommitSpec(lib, t, n) == Some(c)
    requires DealSpec(lib, c.machines, c.commitments) == Some(d)
    requires KeyGenSpec(lib, t, n).Some?
    ensures d.machines.Keys == d.shares.Keys == Participants(n)
    ensures FinishSucceeds(lib, d) && KeyGenSpec(lib, t, n) == Some(Finished(lib, d))
  {
    assert c.machines.Keys == Participants(n);
  }

  /** With a correct library, the bundle keyed i in the result carries parameters (t, n, i). */
  lemma KeyGenParams(lib: Library, t: uint16, n: uint16)
    requires Laws(lib)
    requires KeyGenSpec(lib, t, n).Some?
    ensures forall i :: i in KeyGenSpec(lib, t, n).value ==>
              lib.keyParams(KeyGenSpec(lib, t, n).value[i]) == Params(t, n, i)
  {
    var c := CommitSpec(lib, t, n).value;
    var d := DealSpec(lib, c.machines, c.commitments).value;
    var keys := KeyGenSpec(lib, t, n).value;
    forall i | i in keys
      ensures lib.keyParams(keys[i]) == Params(t, n, i)
    {
      var m0 := lib.newMachine(Params(t, n, i), Context);
      assert lib.machineParams(c.machines[i]) == lib.machineParams(m0) == Params(t, n, i);
      assert lib.machineParams(d.machines[i]) == lib.machineParams(c.machines[i]);
      assert lib.keyParams(keys[i]) == lib.machineParams(d.machines[i]);
    }
  }
}
