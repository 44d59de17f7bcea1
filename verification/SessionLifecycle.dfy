/** The state graph of install sessions, and what it implies for every run of the daemon, however
    often the run is cut by crashes and reboots. */
module SessionLifecycle {
  import opened Basics
  import opened Storage

  function StateOf(d: Disk, id: int): Option<State> {
    if id in d.sessions then Some(d.sessions[id].state) else None
  }

  /** The changes that one atomic write may make to one session. `None` is a session that is not on
      disk. A submission may reuse the id of any session except one being reverted. */
  predicate Edge(from: Option<State>, to: Option<State>) {
    || from == to
    || (to == Some(VERIFIED) && from != Some(REVERT_IN_PROGRESS))
    || (from == Some(VERIFIED) && to == Some(STAGED))
    || (from == Some(STAGED) && to in {Some(ACTIVATED), Some(ACTIVATION_FAILED)})
    || (from == Some(ACTIVATED) && to in {Some(SUCCESS), Some(ACTIVATION_FAILED)})
    || (from in {Some(VERIFIED), Some(STAGED), Some(ACTIVATED)} && to == Some(REVERT_IN_PROGRESS))
    || (from == Some(REVERT_IN_PROGRESS) && to in {Some(REVERTED), Some(REVERT_FAILED)})
    || (to == None && (from in {Some(VERIFIED), Some(STAGED)} || (from.Some? && FinalState(from.value))))
  }

  ghost predicate LegalStep(d: Disk, e: Disk) {
    forall id :: Edge(StateOf(d, id), StateOf(e, id))
  }

  /** A write that changes sessions only along the graph. */
  predicate Legal(d: Disk, w: Write) {
    match w
    case Commit(id, s) => Edge(StateOf(d, id), Some(s.state))
    case DeleteSession(id) => Edge(StateOf(d, id), None)
    case _ => true
  }

  lemma LegalWriteIsLegalStep(d: Disk, w: Write)
    requires Legal(d, w)
    ensures LegalStep(d, Apply(d, w))
  {
    forall id ensures Edge(StateOf(d, id), StateOf(Apply(d, w), id)) { }
  }

  /** The disks a run goes through, one atomic write at a time. */
  ghost predicate LegalRun(run: seq<Disk>) {
    |run| > 0 && forall i :: 0 < i < |run| ==> LegalStep(run[i - 1], run[i])
  }

  /** Session `id` is in state `s` from `i` on, up to and including `j`. */
  ghost predicate Throughout(run: seq<Disk>, id: int, i: nat, j: nat, s: Option<State>)
    requires j < |run|
  {
    forall k :: i <= k <= j ==> StateOf(run[k], id) == s
  }

  /** The last moment before `j` at which the session was in another state. */
  lemma {:induction false} LastChange(run: seq<Disk>, id: int, j: nat) returns (i: nat)
    requires LegalRun(run) && j < |run|
    requires StateOf(run[0], id) != StateOf(run[j], id)
    ensures i < j && StateOf(run[i], id) != StateOf(run[j], id)
    ensures Throughout(run, id, i + 1, j, StateOf(run[j], id))
    ensures Edge(StateOf(run[i], id), StateOf(run[j], id))
  {
    i := j - 1;
    while StateOf(run[i], id) == StateOf(run[j], id)
      invariant i < j && Throughout(run, id, i + 1, j, StateOf(run[j], id))
      decreases i
    {
      i := i - 1;
    }
    assert StateOf(run[i + 1], id) == StateOf(run[j], id);
    assert LegalStep(run[i], run[i + 1]);
  }

  /** The first moment after `i` at which the session is in another state. */
  lemma {:induction false} FirstChange(run: seq<Disk>, id: int, i: nat, j: nat) returns (k: nat)
    requires LegalRun(run) && i <= j < |run|
    requires StateOf(run[i], id) != StateOf(run[j], id)
    ensures i < k <= j && StateOf(run[k], id) != StateOf(run[i], id)
    ensures Throughout(run, id, i, k - 1, StateOf(run[i], id))
    ensures Edge(StateOf(run[i], id), StateOf(run[k], id))
  {
    k := i + 1;
    while StateOf(run[k], id) == StateOf(run[i], id)
      invariant i < k <= j && Throughout(run, id, i, k - 1, StateOf(run[i], id))
      decreases j - k
    {
      k := k + 1;
    }
    assert LegalStep(run[k - 1], run[k]);
  }

  /** Session `id` was VERIFIED at `a`, STAGED up to `b`, ACTIVATED up to `c` and SUCCESS up to `j`. */
  ghost predicate WholeLife(run: seq<Disk>, id: int, a: nat, b: nat, c: nat, j: nat)
    requires j < |run|
  {
    && a < b < c < j
    && StateOf(run[a], id) == Some(VERIFIED)
    && Throughout(run, id, a + 1, b, Some(STAGED))
    && Throughout(run, id, b + 1, c, Some(ACTIVATED))
    && Throughout(run, id, c + 1, j, Some(SUCCESS))
  }

  /** A session reaches SUCCESS only by being submitted, made ready and activated, in that order and
      with nothing in between. */
  lemma {:induction false} SuccessWasVerifiedStagedActivated(run: seq<Disk>, id: int, j: nat)
    requires LegalRun(run) && j < |run|
    requires StateOf(run[0], id) == None && StateOf(run[j], id) == Some(SUCCESS)
    ensures exists a, b, c :: WholeLife(run, id, a, b, c, j)
  {
    var c := LastChange(run, id, j);
    assert StateOf(run[c], id) == Some(ACTIVATED);
    var b := LastChange(run, id, c);
    assert StateOf(run[b], id) == Some(STAGED);
    var a := LastChange(run, id, b);
    assert WholeLife(run, id, a, b, c, j);
  }

  /** Whenever a session is found ACTIVATED, it was STAGED right before it became so, or it was
      ACTIVATED from the start of the run. */
  lemma {:induction false} ActivatedWasStaged(run: seq<Disk>, id: int, j: nat)
    requires LegalRun(run) && j < |run| && StateOf(run[j], id) == Some(ACTIVATED)
    ensures Throughout(run, id, 0, j, Some(ACTIVATED)) ||
      exists i :: 0 <= i < j && StateOf(run[i], id) == Some(STAGED) && Throughout(run, id, i + 1, j, Some(ACTIVATED))
  {
    if k :| 0 <= k <= j && StateOf(run[k], id) != Some(ACTIVATED) {
      var tail := run[k..];
      forall m | 0 < m < |tail| ensures LegalStep(tail[m - 1], tail[m]) {
        assert LegalStep(run[k + m - 1], run[k + m]);
      }
      var i := LastChange(tail, id, j - k);
      forall m | k + i + 1 <= m <= j ensures StateOf(run[m], id) == Some(ACTIVATED) {
        assert StateOf(tail[m - k], id) == Some(ACTIVATED);
      }
      assert StateOf(run[k + i], id) == Some(STAGED);
    }
  }

  /** A revert, once begun, ends only in REVERTED or REVERT_FAILED. */
  lemma {:induction false} RevertEndsReverted(run: seq<Disk>, id: int, i: nat, j: nat)
    requires LegalRun(run) && i <= j < |run| && StateOf(run[i], id) == Some(REVERT_IN_PROGRESS)
    ensures StateOf(run[j], id) == Some(REVERT_IN_PROGRESS) ||
      exists k :: i < k <= j && Throughout(run, id, i, k - 1, Some(REVERT_IN_PROGRESS)) &&
        StateOf(run[k], id) in {Some(REVERTED), Some(REVERT_FAILED)}
  {
    if StateOf(run[j], id) != Some(REVERT_IN_PROGRESS) {
      var k := FirstChange(run, id, i, j);
    }
  }

  /** A finalized session stays as it is until it is deleted or its id is submitted again. */
  lemma {:induction false} FinalizedStays(run: seq<Disk>, id: int, i: nat, j: nat)
    requires LegalRun(run) && i <= j < |run|
    requires StateOf(run[i], id).Some? && FinalState(StateOf(run[i], id).value)
    ensures StateOf(run[j], id) == StateOf(run[i], id) ||
      exists k :: i < k <= j && Throughout(run, id, i, k - 1, StateOf(run[i], id)) &&
        StateOf(run[k], id) in {None, Some(VERIFIED)}
  {
    if StateOf(run[j], id) != StateOf(run[i], id) {
      var k := FirstChange(run, id, i, j);
    }
  }
}
