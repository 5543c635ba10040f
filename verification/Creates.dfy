/** The retry loop of a create while other requests change the table between its turns. */
module Creates {
  import opened Links
  import opened Runs
  import opened Serving
  import AdminForm

  /** One turn: the id it drew, whether the database failed, and whether the id was taken at that moment. */
  datatype Try = Try(id: string, down: bool, taken: bool)

  predicate IsTurn(w: World, s: Step, req: nat) {
    s.TryInsert? && s.req == req && req in w.pending && w.pending[req].Creating?
  }

  function TurnOf(w: World, s: Step, req: nat): seq<Try> {
    if IsTurn(w, s, req) then [Try(s.id, s.down, s.id in w.table.rows)] else []
  }

  /** The turns that a create request gets in a run. */
  function Tries(w: World, steps: seq<Step>, req: nat): seq<Try>
    decreases |steps|
  {
    if steps == [] then [] else TurnOf(w, steps[0], req) + Tries(Next(w, steps[0]), steps[1..], req)
  }

  predicate Passes(t: Try) { t.taken && !t.down }

  /** A turn that finds its id free adds one row under it; any other leaves the table alone. */
  lemma TurnOutcome(w: World, s: Step, req: nat)
    requires IsTurn(w, s, req)
    ensures var n, t := w.pending[req].n, w.table;
            Next(w, s).table ==
            if s.down || s.id in t.rows then t
            else Table(t.rows[s.id := Row(t.next, LinkOf(s.id, n, w.now))], t.next + 1)
    ensures var p, v := w.pending[req], Next(w, s);
            var u := TurnOf(w, s, req)[0];
            if Passes(u) && p.tries + 1 < CREATE_ATTEMPTS
            then req in v.pending && v.pending[req] == Creating(p.n, p.tries + 1)
            else req !in v.pending
                 && v.log == w.log + [Event(req, u.id, if u.taken || u.down then CreateFailed else Created)]
  {
    hide Update;
    hide AdminForm.Submit;
    hide DoRead;
    hide DoCheck;
    hide DoTouch;
    hide DoShow;
    hide DoOpen;
    hide DoValidate;
    hide DoSave;
  }

  lemma NotATurn(w: World, s: Step, req: nat)
    requires req < w.started && req in w.pending && w.pending[req].Creating? && !IsTurn(w, s, req)
    ensures req in Next(w, s).pending && Next(w, s).pending[req] == w.pending[req]
  {
    hide Update;
    hide AdminForm.Submit;
  }

  lemma LogGrows(w: World, s: Step)
    ensures w.log <= Next(w, s).log
  {
    hide Update;
    hide AdminForm.Submit;
  }

  lemma {:induction false} RunLogGrows(w: World, steps: seq<Step>)
    ensures w.log <= Exec(w, steps).log
    decreases |steps|
  {
    hide Next;
    if steps != [] {
      LogGrows(w, steps[0]);
      RunLogGrows(Next(w, steps[0]), steps[1..]);
    }
  }

  lemma {:induction false} NoMoreTries(w: World, steps: seq<Step>, req: nat)
    requires req < w.started && req !in w.pending
    ensures Tries(w, steps, req) == []
    decreases |steps|
  {
    hide Next;
    if steps != [] {
      NextForgets(w, steps[0], req);
      NoMoreTries(Next(w, steps[0]), steps[1..], req);
    }
  }

  /** Where a create stands after these turns. */
  ghost predicate Stands(v: World, req: nat, n: NewLink, before: nat, turns: seq<Try>) {
    && before + |turns| <= 5
    && (forall i :: 0 <= i < |turns| - 1 ==> Passes(turns[i]))
    && if turns == [] || (Passes(turns[|turns| - 1]) && before + |turns| < 5)
       then req in v.pending && v.pending[req] == Creating(n, before + |turns|)
       else
         var last := turns[|turns| - 1];
         req !in v.pending && Event(req, last.id, if last.taken || last.down then CreateFailed else Created) in v.log
  }

  lemma LastTurn(v: World, x: World, req: nat, n: NewLink, before: nat, u: Try)
    requires before < CREATE_ATTEMPTS && (Passes(u) ==> before + 1 == CREATE_ATTEMPTS)
    requires Event(req, u.id, if u.taken || u.down then CreateFailed else Created) in v.log
    requires v.log <= x.log && req !in x.pending
    ensures Stands(x, req, n, before, [u])
  {
  }

  predicate Open(w: World, req: nat) {
    req < w.started && req in w.pending && w.pending[req].Creating? && w.pending[req].tries < CREATE_ATTEMPTS
  }

  lemma {:induction false} RunStands(w: World, steps: seq<Step>, req: nat)
    requires Open(w, req)
    ensures Stands(Exec(w, steps), req, w.pending[req].n, w.pending[req].tries, Tries(w, steps, req))
    decreases |steps|
  {
    hide Next;
    if steps != [] {
      hide Stands;
      var s, v, p := steps[0], Next(w, steps[0]), w.pending[req];
      var x, turns := Exec(v, steps[1..]), Tries(v, steps[1..], req);
      StartedGrows(w, s);
      if IsTurn(w, s, req) {
        TurnOutcome(w, s, req);
        var u := Try(s.id, s.down, s.id in w.table.rows);
        assert TurnOf(w, s, req) == [u];
        if Passes(u) && p.tries + 1 < CREATE_ATTEMPTS {
          RunStands(v, steps[1..], req);
          MoreTurns(x, req, p.n, p.tries, u, turns);
        } else {
          NoMoreTries(v, steps[1..], req);
          RunForgets(v, steps[1..], req);
          RunLogGrows(v, steps[1..]);
          LastTurn(v, x, req, p.n, p.tries, u);
          assert [u] + turns == [u];
        }
      } else {
        NotATurn(w, s, req);
        RunStands(v, steps[1..], req);
        assert Tries(w, steps, req) == [] + turns == turns;
      }
    }
  }

  lemma MoreTurns(v: World, req: nat, n: NewLink, before: nat, u: Try, turns: seq<Try>)
    requires Passes(u) && Stands(v, req, n, before + 1, turns) && before + 1 < CREATE_ATTEMPTS
    ensures Stands(v, req, n, before, [u] + turns)
  {
    var all := [u] + turns;
    assert forall i :: 1 <= i < |all| ==> all[i] == turns[i - 1];
  }

  /** However other requests interleave, a create draws at most five ids, each but the last of which was
      taken when it was tried. It ends with the first id that is free, or with the database's failure, or
      with the fifth id taken; only in the first case is it answered with success. */
  lemma CreateOutcome(w: World, n: NewLink, steps: seq<Step>)
    ensures var v := Next(w, Submit(n));
            Stands(Exec(v, steps), w.started, n, 0, Tries(v, steps, w.started))
  {
    hide Stands;
    hide Exec;
    hide Tries;
    var v := Next(w, Submit(n));
    assert v == Begin(w, Creating(n, 0));
    hide Next;
    RunStands(v, steps, w.started);
  }
}
