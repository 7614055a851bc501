/**
 * The task object whose critical sections the lifecycle steps are: the loops
 * over its transactions and attachments, each proved to take one step of Lifecycle.
 */
module LifecycleTask {
  import opened Lifecycle

  datatype Record = Record(transactions: seq<Tx>, draining: bool)

  function TxSet(txs: seq<Tx>): set<Tx> {
    set i | 0 <= i < |txs| :: txs[i]
  }

  function Registered(attachments: map<Att, Record>): map<Att, Attachment> {
    map a | a in attachments :: Attachment(TxSet(attachments[a].transactions), attachments[a].draining)
  }

  lemma MarkAllTwice(ledger: map<Tx, Dest>, a: set<Tx>, b: set<Tx>, ok: bool)
    ensures MarkAll(MarkAll(ledger, a, ok), b, ok) == MarkAll(ledger, a + b, ok)
  {
  }

  lemma MarkNone(ledger: map<Tx, Dest>, ok: bool)
    ensures MarkAll(ledger, {}, ok) == ledger
  {
  }

  lemma AbortTwice(ledger: map<Tx, Dest>, a: set<Tx>, b: set<Tx>)
    ensures Disposed(Disposed(ledger, a, Abort), b, Abort) == Disposed(ledger, a + b, Abort)
  {
  }

  /** The transactions of the chosen attachments. */
  ghost function TxsOf(attachments: map<Att, Record>, chosen: set<Att>): set<Tx> {
    set a, t | a in chosen && a in attachments && t in TxSet(attachments[a].transactions) :: t
  }

  lemma RegisteredOneMore(attachments: map<Att, Record>, a: Att, txs: seq<Tx>, ids: set<Tx>)
    requires ids == TxSet(txs)
    ensures Registered(attachments[a := Record(txs, false)]) == Registered(attachments)[a := Attachment(ids, false)]
  {
  }

  /** What the task owns through its attachments, and what of it is draining. */
  lemma OwnedIs(attachments: map<Att, Record>)
    ensures TxsOf(attachments, attachments.Keys) == Owned(Registered(attachments))
    ensures TxsOf(attachments, Doomed(attachments, attachments.Keys, true)) == Owned(Registered(attachments))
    ensures TxsOf(attachments, Doomed(attachments, attachments.Keys, false)) == Draining(Registered(attachments))
  {
    assert Doomed(attachments, attachments.Keys, true) == attachments.Keys;
    var r := Registered(attachments);
    forall a, t | a in attachments && t in TxSet(attachments[a].transactions)
      ensures t in Owned(r) && (attachments[a].draining ==> t in Draining(r))
    {
      assert a in r && t in r[a].txs;
    }
    forall a, t | a in r && t in r[a].txs
      ensures t in TxsOf(attachments, attachments.Keys)
      ensures r[a].draining ==> t in TxsOf(attachments, Doomed(attachments, attachments.Keys, false))
    {
      assert a in attachments && t in TxSet(attachments[a].transactions);
    }
  }

  lemma PutTwice(s: State, tx: Tx, d: Dest, e: Dest)
    ensures Put(Put(s, tx, d), tx, e) == Put(s, tx, e)
  {
    assert s.ledger[tx := d][tx := e] == s.ledger[tx := e];
  }

  lemma DecideOne(s: State, tx: Tx, d: Dest)
    requires d.phase.Loaded?
    ensures Apply(Put(s, tx, d), Decide(tx)) == Put(s, tx, d.(phase := Decided(Commits(d, s.graphErr))))
  {
    PutTwice(s, tx, d, d.(phase := Decided(Commits(d, s.graphErr))));
  }

  lemma SettleOne(s: State, tx: Tx, d: Dest, err: bool)
    requires d.phase.Decided?
    ensures Apply(Put(s, tx, d), Settle(tx, err)) == Put(s, tx, d.(phase := Settled(d.phase.commit && !err)))
  {
    var p, e := Put(s, tx, d), d.(phase := Settled(d.phase.commit && !err));
    assert p.ledger[tx] == d;
    assert Apply(p, Settle(tx, err)) == Put(p, tx, e);
    PutTwice(s, tx, d, e);
  }

  lemma FlushAndLoad(s: State, tx: Tx, err: bool)
    requires tx in s.ledger && s.ledger[tx].phase.Live?
    ensures
      var d := AfterFlush(s.ledger[tx], err);
      Apply(Apply(s, Flush(tx, err)), Load(tx)) == Put(s, tx, d.(phase := Loaded(d.muxFailed)))
  {
    var d := AfterFlush(s.ledger[tx], err);
    assert Put(s, tx, d).ledger[tx] == d;
    PutTwice(s, tx, d, d.(phase := Loaded(d.muxFailed)));
  }

  /** The attachments among those chosen that Close aborts. */
  ghost function Doomed(attachments: map<Att, Record>, chosen: set<Att>, all: bool): set<Att> {
    set a | a in chosen && a in attachments && (all || attachments[a].draining)
  }

  class Task {
    var destinations: seq<Tx>
    var ledger: map<Tx, Dest>
    var attachments: map<Att, Record>
    var started: bool
    var finished: bool
    var runErr: bool
    var closeStarted: bool
    var closeAbandoned: bool
    var graphErr: bool

    ghost predicate Valid()
      reads this
    {
      && TxSet(destinations) <= ledger.Keys
      && forall a :: a in attachments ==> TxSet(attachments[a].transactions) <= ledger.Keys
    }

    ghost function Abs(): State
      reads this
    {
      State(TxSet(destinations), ledger, Registered(attachments), started, finished, runErr, closeStarted, closeAbandoned, graphErr)
    }

    /** Succeed or Fail each transaction of a list. */
    method MarkEach(txs: seq<Tx>, ok: bool)
      requires TxSet(txs) <= ledger.Keys
      modifies this`ledger
      ensures ledger == MarkAll(old(ledger), TxSet(txs), ok)
    {
      var i := 0;
      MarkNone(ledger, ok);
      while i < |txs|
        invariant 0 <= i <= |txs|
        invariant ledger == MarkAll(old(ledger), TxSet(txs[..i]), ok)
      {
        assert txs[i] in TxSet(txs);
        assert TxSet(txs[..i+1]) == TxSet(txs[..i]) + {txs[i]};
        ledger := ledger[txs[i] := Marked(ledger[txs[i]], ok)];
        assert ledger == MarkAll(old(ledger), TxSet(txs[..i]) + {txs[i]}, ok);
        i := i + 1;
      }
      assert txs[..i] == txs;
    }

    /** Abort each transaction of a list, and its muxer with it. */
    method AbortEach(txs: seq<Tx>)
      requires TxSet(txs) <= ledger.Keys
      modifies this`ledger
      ensures ledger == Disposed(old(ledger), TxSet(txs), Abort)
    {
      var i := 0;
      assert ledger == Disposed(ledger, {}, Abort);
      while i < |txs|
        invariant 0 <= i <= |txs|
        invariant ledger == Disposed(old(ledger), TxSet(txs[..i]), Abort)
      {
        assert txs[i] in TxSet(txs);
        assert TxSet(txs[..i+1]) == TxSet(txs[..i]) + {txs[i]};
        ledger := ledger[txs[i] := ledger[txs[i]].(failed := true, muxFailed := true)];
        assert ledger == Disposed(old(ledger), TxSet(txs[..i]) + {txs[i]}, Abort);
        i := i + 1;
      }
      assert txs[..i] == txs;
    }

    /** `finishDestinationsLocked`: one outcome for the roots and every attachment still owned. */
    method FinishDestinationsLocked(ok: bool)
      requires Valid()
      modifies this`ledger
      ensures ledger == MarkAll(old(ledger), TxSet(destinations) + Owned(Registered(attachments)), ok)
    {
      MarkEach(destinations, ok);
      ghost var roots := TxSet(destinations);
      var left := attachments.Keys;
      assert TxsOf(attachments, attachments.Keys - left) == {} && roots + {} == roots;
      while left != {}
        invariant left <= attachments.Keys && ledger.Keys == old(ledger).Keys
        invariant ledger == MarkAll(old(ledger), roots + TxsOf(attachments, attachments.Keys - left), ok)
        decreases left
      {
        var a :| a in left;
        ghost var done := attachments.Keys - left;
        MarkEach(attachments[a].transactions, ok);
        MarkAllTwice(old(ledger), roots + TxsOf(attachments, done), TxSet(attachments[a].transactions), ok);
        left := left - {a};
        assert roots + TxsOf(attachments, attachments.Keys - left)
            == roots + TxsOf(attachments, done) + TxSet(attachments[a].transactions);
      }
      OwnedIs(attachments);
      assert attachments.Keys - left == attachments.Keys;
    }

    /** The end of `Run`: outcomes, then finished, in one critical section. */
    method RunEnded(err: bool)
      requires Valid() && started && !finished
      modifies this`ledger, this`finished, this`runErr
      ensures Valid() && Abs() == Apply(old(Abs()), RunEnd(err))
    {
      FinishDestinationsLocked(!err);
      finished, runErr := true, err;
    }

    /** The decision of `CloseContext`. */
    method CloseDecision()
      requires Valid()
      modifies this`ledger, this`closeStarted, this`closeAbandoned
      ensures Valid() && Abs() == Apply(old(Abs()), CloseStart)
    {
      if closeStarted {
        return;
      }
      closeStarted := true;
      closeAbandoned := !finished;
      if closeAbandoned {
        MarkEach(destinations, false);
      }
      ghost var roots := ledger;
      var left := attachments.Keys;
      ghost var doomed: set<Tx> := {};
      assert Disposed(roots, {}, Abort) == roots;
      while left != {}
        modifies this`ledger
        invariant left <= attachments.Keys && ledger.Keys == old(ledger).Keys
        invariant ledger == Disposed(roots, doomed, Abort)
        invariant doomed == TxsOf(attachments, Doomed(attachments, attachments.Keys - left, closeAbandoned))
        decreases left
      {
        var a :| a in left;
        if closeAbandoned || attachments[a].draining {
          AbortEach(attachments[a].transactions);
          AbortTwice(roots, doomed, TxSet(attachments[a].transactions));
          doomed := doomed + TxSet(attachments[a].transactions);
        }
        left := left - {a};
      }
      OwnedIs(attachments);
      assert attachments.Keys - left == attachments.Keys;
    }

    /** The attachment and its new destinations enter the task. */
    method Adopt(a: Att, txs: seq<Tx>, sinks: map<Tx, bool>)
      requires Valid() && a !in attachments
      requires sinks.Keys == TxSet(txs) && sinks.Keys !! ledger.Keys
      modifies this`ledger, this`attachments
      ensures Valid() && ledger == old(ledger) + NewDests(sinks)
      ensures Registered(attachments) == old(Registered(attachments))[a := Attachment(sinks.Keys, false)]
      ensures TxSet(txs) <= ledger.Keys
    {
      RegisteredOneMore(attachments, a, txs, sinks.Keys);
      attachments := attachments[a := Record(txs, false)];
      ledger := ledger + NewDests(sinks);
    }

    /** `beginAttachmentLifecycle`: refused once any Close started. */
    method BeginAttachmentLifecycle(a: Att, txs: seq<Tx>, sinks: map<Tx, bool>) returns (ok: bool)
      requires Valid() && a !in attachments
      requires sinks.Keys == TxSet(txs) && sinks.Keys !! ledger.Keys
      modifies this`ledger, this`attachments
      ensures Valid() && ok == !closeStarted
      ensures Abs() == Apply(old(Abs()), Begin(a, sinks))
    {
      if closeStarted {
        return false;
      }
      Adopt(a, txs, sinks);
      if finished {
        MarkEach(txs, !runErr);
      }
      return true;
    }

    /** `setAttachmentDisposition`: a drain accepted after Close started is an abort. */
    method SetAttachmentDisposition(a: Att, disposition: Disposition)
      requires Valid() && a in attachments
      modifies this`ledger, this`attachments
      ensures Valid() && Abs() == Apply(old(Abs()), SetDisposition(a, disposition))
      ensures disposition != Drain ==> attachments == old(attachments)
    {
      ghost var before := Abs();
      var chosen := disposition;
      if disposition == Drain {
        attachments := attachments[a := attachments[a].(draining := true)];
        if closeStarted {
          chosen := Abort;
        }
      }
      match chosen
      {
        case Drain => MarkEach(attachments[a].transactions, true);
        case Abort => AbortEach(attachments[a].transactions);
        case Detach =>
      }
      assert Registered(attachments)
          == if disposition == Drain then before.active[a := before.active[a].(draining := true)] else before.active;
    }

    /** `endAttachmentLifecycle`: the task gives up the attachment. */
    method EndAttachmentLifecycle(a: Att)
      requires Valid() && a in attachments
      modifies this`attachments
      ensures Valid() && Abs() == Apply(old(Abs()), EndAttachment(a))
    {
      ghost var before := Abs();
      attachments := attachments - {a};
      assert Registered(attachments) == before.active - {a};
    }

    /** `destinationWriterMuxer.Close` with nothing in between: its four steps in order. */
    method CloseMuxer(tx: Tx, muxErr: bool, writerErr: bool) returns (committed: bool)
      requires Valid() && tx in ledger && ledger[tx].phase.Live? && !ledger[tx].sink
      modifies this`ledger
      ensures Valid()
      ensures Abs() == Apply(Apply(Apply(Apply(old(Abs()), Flush(tx, muxErr)), Load(tx)), Decide(tx)), Settle(tx, writerErr))
      ensures committed <==> !muxErr && !writerErr && Committable(old(ledger)[tx], graphErr)
      ensures ledger == old(ledger)[tx := ledger[tx]] && ledger[tx].phase == Settled(committed)
    {
      var d := if muxErr then Broken(ledger[tx]) else ledger[tx];
      var aborts := d.muxFailed || ShouldAbort(d, graphErr);
      committed := !aborts && !writerErr;
      FlushAndLoad(Abs(), tx, muxErr);
      DecideOne(Abs(), tx, d.(phase := Loaded(d.muxFailed)));
      SettleOne(Abs(), tx, d.(phase := Decided(!aborts)), writerErr);
      ledger := ledger[tx := d.(phase := Settled(committed))];
    }

    /** `trackedDestinationSink.Close` with nothing in between. */
    method CloseSink(tx: Tx, err: bool) returns (committed: bool)
      requires Valid() && tx in ledger && ledger[tx].phase.Live? && ledger[tx].sink
      modifies this`ledger
      ensures Valid()
      ensures Abs() == Apply(Apply(Apply(Apply(old(Abs()), Flush(tx, err)), Load(tx)), Decide(tx)), Settle(tx, err))
      ensures committed <==> !err && Committable(old(ledger)[tx], graphErr)
      ensures ledger == old(ledger)[tx := ledger[tx]] && ledger[tx].phase == Settled(committed)
    {
      var d := ledger[tx];
      var commits := !LedgerFailed(d, graphErr) && d.succeeded;
      committed := commits && !err;
      FlushAndLoad(Abs(), tx, err);
      DecideOne(Abs(), tx, d.(phase := Loaded(d.muxFailed)));
      SettleOne(Abs(), tx, d.(phase := Decided(commits)), err);
      ledger := ledger[tx := d.(phase := Settled(committed))];
    }
  }
}
