/** The two counters as the code moves them: after the statement that they count, in a step of their own. */
module Counters {
  import opened Links
  import opened Runs
  import AdminForm

  /** `creating` is the number of creates that have inserted their link and not counted it yet; `sweeping` has
      the numbers of links that sweeps have deleted and not added yet. */
  datatype Metered = Metered(site: World, createSuccess: nat, expiredLinks: nat, creating: nat, sweeping: seq<nat>)

  datatype Act =
    | Do(s: Step)
    | CountCreate
    | CountSweep(i: nat)

  function Sum(numbers: seq<nat>): nat {
    if numbers == [] then 0 else numbers[0] + Sum(numbers[1..])
  }

  /** The step inserts a link, which the handler is to count. */
  predicate Inserts(w: World, s: Step) {
    s.TryInsert? && !s.down && s.req in w.pending && w.pending[s.req].Creating? && s.id !in w.table.rows
  }

  /** The number of links that the step sweeps, which the job is to add. */
  function Deletes(w: World, s: Step): seq<nat> {
    if s.Sweep? && !s.down && s.at <= w.now then [CountIn(w.table, ExpiredIds(w.table, s.at))] else []
  }

  function NextMeter(m: Metered, a: Act): Metered {
    match a
    case Do(s) =>
      m.(site := Next(m.site, s),
         creating := m.creating + if Inserts(m.site, s) then 1 else 0,
         sweeping := m.sweeping + Deletes(m.site, s))
    case CountCreate =>
      if m.creating == 0 then m else m.(createSuccess := m.createSuccess + 1, creating := m.creating - 1)
    case CountSweep(i) =>
      if i >= |m.sweeping| then m
      else m.(expiredLinks := m.expiredLinks + m.sweeping[i], sweeping := m.sweeping[..i] + m.sweeping[i + 1..])
  }

  function Run(m: Metered, acts: seq<Act>): Metered
    decreases |acts|
  {
    if acts == [] then m else Run(NextMeter(m, acts[0]), acts[1..])
  }

  function Start(now: Time): Metered {
    Metered(Init(now), 0, 0, 0, [])
  }

  /** The counters and what is still to be counted are the links created and swept. */
  ghost predicate Accounted(m: Metered) {
    && Conserved(m.site)
    && m.createSuccess + m.creating == m.site.created
    && m.expiredLinks + Sum(m.sweeping) == m.site.expired
  }

  lemma {:induction false} SumConcat(a: seq<nat>, b: seq<nat>)
    ensures Sum(a + b) == Sum(a) + Sum(b)
  {
    if a == [] {
      assert a + b == b;
    } else {
      SumConcat(a[1..], b);
      assert (a + b)[1..] == a[1..] + b;
    }
  }

  lemma SumWithout(numbers: seq<nat>, i: nat)
    requires i < |numbers|
    ensures Sum(numbers[..i] + numbers[i + 1..]) + numbers[i] == Sum(numbers)
  {
    SumConcat(numbers[..i], numbers[i + 1..]);
    SumConcat(numbers[..i], numbers[i..]);
    assert numbers == numbers[..i] + numbers[i..];
    assert numbers[i..][1..] == numbers[i + 1..];
  }

  lemma StepCounts(w: World, s: Step)
    ensures Next(w, s).created == w.created + if Inserts(w, s) then 1 else 0
    ensures Next(w, s).expired == w.expired + Sum(Deletes(w, s))
  {
    hide Update;
    hide AdminForm.Submit;
    hide CountIn;
    hide ExpiredIds;
    hide DeleteAll;
    assert Deletes(w, s) != [] ==> Deletes(w, s)[1..] == [];
  }

  lemma StepAccounts(m: Metered, a: Act)
    requires Accounted(m)
    ensures Accounted(NextMeter(m, a))
  {
    hide Next;
    hide Conserved;
    hide Inserts;
    hide Deletes;
    match a
    case Do(s) =>
      StepCounts(m.site, s);
      NextConserves(m.site, s);
      SumConcat(m.sweeping, Deletes(m.site, s));
    case CountCreate =>
    case CountSweep(i) =>
      if i < |m.sweeping| {
        SumWithout(m.sweeping, i);
      }
  }

  lemma {:induction false} RunAccounts(m: Metered, acts: seq<Act>)
    requires Accounted(m)
    ensures Accounted(Run(m, acts))
    decreases |acts|
  {
    hide NextMeter;
    hide Accounted;
    if acts != [] {
      StepAccounts(m, acts[0]);
      RunAccounts(NextMeter(m, acts[0]), acts[1..]);
    }
  }

  /** In every run from an empty table, with counting as steps of its own that come whenever they do: the
      counters are off by just what has been inserted and swept and not counted yet. In particular they are
      equal whenever nothing waits to be counted. */
  lemma CountersCatchUp(now: Time, acts: seq<Act>)
    ensures var m := Run(Start(now), acts);
            && m.createSuccess + m.creating == |m.site.table.rows| + m.site.removed + m.expiredLinks + Sum(m.sweeping)
            && (m.creating == 0 && m.sweeping == [] ==>
                  m.createSuccess == |m.site.table.rows| + m.site.removed + m.expiredLinks)
  {
    RunAccounts(Start(now), acts);
    hide Run;
  }
}
