/** Which processing job a capture run is bound to: the store remembers one binding, and
    refuses to give the bound run another job. */
module ProcessingJobs {
  import opened Wrappers

  datatype Binding = Binding(captureRunId: string, jobId: string)

  predicate Named(bind: Binding)
  {
    bind.captureRunId != "" && bind.jobId != ""
  }

  /** Whether the binding is taken over what is bound now. */
  predicate Accepts(bound: Option<Binding>, bind: Binding)
  {
    && Named(bind)
    && (bound.Some? && bound.value.captureRunId == bind.captureRunId ==> bound.value.jobId == bind.jobId)
  }

  function AfterBind(bound: Option<Binding>, bind: Binding): Option<Binding>
  {
    if Accepts(bound, bind) then Some(bind) else bound
  }

  function BindAll(bound: Option<Binding>, binds: seq<Binding>): Option<Binding>
    decreases |binds|
  {
    if binds == [] then bound else BindAll(AfterBind(bound, binds[0]), binds[1..])
  }

  /** The bindings that were taken. */
  function Taken(bound: Option<Binding>, binds: seq<Binding>): seq<Binding>
    decreases |binds|
  {
    if binds == [] then []
    else
      (if Accepts(bound, binds[0]) then [binds[0]] else []) + Taken(AfterBind(bound, binds[0]), binds[1..])
  }

  /** The job of a run, if that run is bound. */
  function JobFor(bound: Option<Binding>, captureRunId: string): Option<string>
  {
    if bound.Some? && bound.value.captureRunId == captureRunId then Some(bound.value.jobId) else None
  }

  predicate Agree(a: Binding, b: Binding)
  {
    a.captureRunId == b.captureRunId ==> a.jobId == b.jobId
  }

  /** Every binding is named, and neighbours of the same run have the same job. */
  predicate Orderly(binds: seq<Binding>)
  {
    && (forall i | 0 <= i < |binds| :: Named(binds[i]))
    && (forall i | 0 < i < |binds| :: Agree(binds[i - 1], binds[i]))
  }

  lemma OrderlyCons(first: Binding, rest: seq<Binding>)
    ensures Orderly([first] + rest)
            <==> Named(first) && Orderly(rest) && (rest != [] ==> Agree(first, rest[0]))
  {
    var all := [first] + rest;
    assert all[0] == first;
    if Orderly(all) {
      forall i | 0 <= i < |rest| ensures Named(rest[i]) && (i > 0 ==> Agree(rest[i - 1], rest[i])) {
        assert all[i + 1] == rest[i] && (i > 0 ==> all[i] == rest[i - 1]);
      }
      assert rest != [] ==> all[1] == rest[0] && Agree(all[0], all[1]);
    }
  }

  /** Whatever is tried, what is taken is orderly. */
  lemma {:induction false} TakenIsOrderly(bound: Option<Binding>, binds: seq<Binding>)
    ensures Orderly(Taken(bound, binds))
    ensures bound.Some? && Taken(bound, binds) != [] ==> Agree(bound.value, Taken(bound, binds)[0])
    decreases |binds|
  {
    if binds != [] {
      TakenIsOrderly(AfterBind(bound, binds[0]), binds[1..]);
      if Accepts(bound, binds[0]) {
        OrderlyCons(binds[0], Taken(Some(binds[0]), binds[1..]));
      }
    }
  }

  /** A series of bindings is taken whole exactly if it is orderly. */
  lemma {:induction false} TakenWhole(binds: seq<Binding>)
    ensures Taken(None, binds) == binds <==> Orderly(binds)
  {
    TakenIsOrderly(None, binds);
    if Orderly(binds) {
      OrderlyIsTaken(None, binds);
    }
  }

  lemma {:induction false} OrderlyIsTaken(bound: Option<Binding>, binds: seq<Binding>)
    requires Orderly(binds) && (bound.Some? && binds != [] ==> Agree(bound.value, binds[0]))
    ensures Taken(bound, binds) == binds
    decreases |binds|
  {
    if binds != [] {
      assert binds == [binds[0]] + binds[1..];
      OrderlyCons(binds[0], binds[1..]);
      OrderlyIsTaken(Some(binds[0]), binds[1..]);
    }
  }

  /** Two bindings of a run that were taken have the same job, as long as no other run was
      taken in between. */
  lemma {:induction false} JobStaysWithRun(bound: Option<Binding>, binds: seq<Binding>, i: nat, j: nat)
    requires i <= j < |Taken(bound, binds)|
    requires forall k | i <= k <= j :: Taken(bound, binds)[k].captureRunId == Taken(bound, binds)[i].captureRunId
    ensures Taken(bound, binds)[j].jobId == Taken(bound, binds)[i].jobId
    decreases j
  {
    TakenIsOrderly(bound, binds);
    if i < j {
      JobStaysWithRun(bound, binds, i, j - 1);
      assert Agree(Taken(bound, binds)[j - 1], Taken(bound, binds)[j]);
    }
  }

  /** A binding that was taken is what the run is told, until another run is named. */
  lemma {:induction false} JobIsRemembered(bind: Binding, later: seq<Binding>)
    requires forall i | 0 <= i < |later| && Named(later[i]) :: later[i].captureRunId == bind.captureRunId
    ensures JobFor(BindAll(Some(bind), later), bind.captureRunId) == Some(bind.jobId)
    decreases |later|
  {
    if later != [] {
      assert Accepts(Some(bind), later[0]) ==> later[0] == bind;
      JobIsRemembered(bind, later[1..]);
    }
  }

  /** When the store returns to a run after another one, it may take another job for it. */
  lemma {:induction false} ReturningRunMayChange()
    ensures var binds := [Binding("A", "one"), Binding("B", "two"), Binding("A", "three")];
            Taken(None, binds) == binds && JobFor(BindAll(None, binds), "A") == Some("three")
  {
    var binds := [Binding("A", "one"), Binding("B", "two"), Binding("A", "three")];
    assert "A"[0] != "B"[0];
    TakenWhole(binds);
    assert binds[1..] == [binds[1], binds[2]] && binds[1..][1..] == [binds[2]] && binds[1..][1..][1..] == [];
    assert BindAll(Some(binds[0]), binds[1..]) == BindAll(Some(binds[1]), [binds[2]]);
  }

  lemma {:induction false} LastTakenIsBound(bound: Option<Binding>, binds: seq<Binding>)
    ensures BindAll(bound, binds)
            == if Taken(bound, binds) == [] then bound else Some(Taken(bound, binds)[|Taken(bound, binds)| - 1])
    decreases |binds|
  {
    if binds != [] {
      LastTakenIsBound(AfterBind(bound, binds[0]), binds[1..]);
    }
  }

  /** A run is told the job of the last binding that was taken, if that was its own. */
  lemma {:induction false} JobIsLastTaken(binds: seq<Binding>, captureRunId: string)
    ensures var taken := Taken(None, binds);
            JobFor(BindAll(None, binds), captureRunId)
            == if taken != [] && taken[|taken| - 1].captureRunId == captureRunId
               then Some(taken[|taken| - 1].jobId) else None
  {
    LastTakenIsBound(None, binds);
  }
}
