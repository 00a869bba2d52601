/** Any sequence of commands on the two ends of a link field, from either end. */
module LinkRuns {
  import opened Options
  import opened LinkedData
  import opened LinkSymmetry

  /** The two datasheets of a link field. */
  datatype Tables = Tables(a: Snapshot, b: Snapshot)

  /** A command that changes link cells of one of them. */
  datatype LinkCommand = LinkCommand(onA: bool, changes: seq<CellChange>)

  function Swap(t: Tables): Tables {
    Tables(t.b, t.a)
  }

  ghost predicate CellsInRecords(s: Snapshot) {
    forall k :: k in s.cells ==> k.rec in s.records
  }

  /** Symmetric, with link cells in existing records only. */
  ghost predicate Linked(t: Tables, ea: End, eb: End) {
    && Symmetric(t.a, ea.field, t.b, eb.field)
    && CellsInRecords(t.a) && CellsInRecords(t.b)
    && ea.field in t.a.linkFields && eb.field in t.b.linkFields
  }

  function StepOnA(t: Tables, ea: End, eb: End, changes: seq<CellChange>): Tables {
    Tables(NearAfter(t.a, ea.field, changes), FarAfter(t.a, ea.field, t.b, eb, changes))
  }

  function Step(t: Tables, ea: End, eb: End, c: LinkCommand): Tables {
    if c.onA then StepOnA(t, ea, eb, c.changes) else Swap(StepOnA(Swap(t), eb, ea, c.changes))
  }

  function Run(t: Tables, ea: End, eb: End, cs: seq<LinkCommand>): Tables
    decreases |cs|
  {
    if cs == [] then t else Run(Step(t, ea, eb, cs[0]), ea, eb, cs[1..])
  }

  /** No link cell holds a record twice. */
  ghost predicate NoCellRepeats(t: Tables, ea: End, eb: End) {
    AllDupFree(t.a, ea.field) && AllDupFree(t.b, eb.field)
  }

  /** What every command sees to: existing records, each named once. */
  predicate Proper(s: Snapshot, changes: seq<CellChange>) {
    && DistinctRecs(changes)
    && forall i :: 0 <= i < |changes| ==> changes[i].rec in s.records
  }

  /** No value that is set holds a record twice. */
  predicate NoValueRepeats(changes: seq<CellChange>) {
    forall i :: 0 <= i < |changes| ==> DupFree(changes[i].value)
  }

  predicate ProperCommand(t: Tables, c: LinkCommand) {
    Proper(if c.onA then t.a else t.b, c.changes)
  }

  predicate ProperRun(t: Tables, ea: End, eb: End, cs: seq<LinkCommand>)
    decreases |cs|
  {
    cs == [] || (ProperCommand(t, cs[0]) && ProperRun(Step(t, ea, eb, cs[0]), ea, eb, cs[1..]))
  }

  predicate AddsExisting(t: Tables, ea: End, eb: End, c: LinkCommand) {
    if c.onA then TargetsExist(t.a, ea.field, t.b, c.changes) else TargetsExist(t.b, eb.field, t.a, c.changes)
  }

  predicate AllAddExisting(t: Tables, ea: End, eb: End, cs: seq<LinkCommand>)
    decreases |cs|
  {
    cs == [] || (AddsExisting(t, ea, eb, cs[0]) && AllAddExisting(Step(t, ea, eb, cs[0]), ea, eb, cs[1..]))
  }

  /** The two datasheets are linked now and after every command. */
  ghost predicate LinkedThroughout(t: Tables, ea: End, eb: End, cs: seq<LinkCommand>)
    decreases |cs|
  {
    Linked(t, ea, eb) && (cs == [] || LinkedThroughout(Step(t, ea, eb, cs[0]), ea, eb, cs[1..]))
  }

  // ---------------------------------------------------------------- one command

  lemma SwapLinked(t: Tables, ea: End, eb: End)
    ensures Linked(Swap(t), eb, ea) <==> Linked(t, ea, eb)
  {
    assert Symmetric(t.b, eb.field, t.a, ea.field) <==> Symmetric(t.a, ea.field, t.b, eb.field);
  }

  lemma {:induction false} WriteAllShape(s: Snapshot, f: Id, changes: seq<CellChange>)
    requires CellsInRecords(s)
    ensures var w := WriteAll(s, f, changes);
            CellsInRecords(w) && w.records == s.records && w.linkFields == s.linkFields
    decreases |changes|
  {
    if changes != [] {
      WriteAllShape(WithLinks(s, Key(changes[0].rec, f), changes[0].value), f, changes[1..]);
    }
  }

  lemma FlushedShape(s: Snapshot, m: Deltas)
    requires CellsInRecords(s)
    ensures var w := Flushed(s, m);
            CellsInRecords(w) && w.records == s.records && w.linkFields == s.linkFields
  {
  }

  /** A proper command on linked datasheets leaves them linked exactly when every link it
      adds leads to an existing record. */
  lemma StepOnALinkedIff(t: Tables, ea: End, eb: End, changes: seq<CellChange>)
    requires Linked(t, ea, eb) && Proper(t.a, changes)
    ensures Linked(StepOnA(t, ea, eb, changes), ea, eb) <==> TargetsExist(t.a, ea.field, t.b, changes)
  {
    assert Before(t.a, ea.field, t.b, eb, changes);
    SymmetricIff(t.a, ea.field, t.b, eb, changes);
    DirectActionsWrite(t.a, t.a, ea.field, changes);
    WriteAllShape(t.a, ea.field, changes);
    FlushedShape(t.b, FarDeltas(t.a, ea.field, t.b, eb, changes));
  }

  lemma StepLinkedIff(t: Tables, ea: End, eb: End, c: LinkCommand)
    requires Linked(t, ea, eb) && ProperCommand(t, c)
    ensures Linked(Step(t, ea, eb, c), ea, eb) <==> AddsExisting(t, ea, eb, c)
  {
    if c.onA {
      StepOnALinkedIff(t, ea, eb, c.changes);
    } else {
      SwapLinked(t, ea, eb);
      StepOnALinkedIff(Swap(t), eb, ea, c.changes);
      SwapLinked(StepOnA(Swap(t), eb, ea, c.changes), eb, ea);
    }
  }

  // ---------------------------------------------------------------- all runs

  /** Through any run of proper commands from either end, the datasheets stay linked exactly
      when every link added at its turn leads to an existing record. */
  lemma {:induction false} LinkedThroughoutIff(t: Tables, ea: End, eb: End, cs: seq<LinkCommand>)
    requires Linked(t, ea, eb) && ProperRun(t, ea, eb, cs)
    ensures LinkedThroughout(t, ea, eb, cs) <==> AllAddExisting(t, ea, eb, cs)
    decreases |cs|
  {
    if cs != [] {
      StepLinkedIff(t, ea, eb, cs[0]);
      var next := Step(t, ea, eb, cs[0]);
      if Linked(next, ea, eb) {
        LinkedThroughoutIff(next, ea, eb, cs[1..]);
      }
    }
  }

  /** So they are linked at the end of such a run. */
  lemma {:induction false} RunKeepsLinked(t: Tables, ea: End, eb: End, cs: seq<LinkCommand>)
    requires Linked(t, ea, eb) && ProperRun(t, ea, eb, cs) && AllAddExisting(t, ea, eb, cs)
    ensures Linked(Run(t, ea, eb, cs), ea, eb)
    decreases |cs|
  {
    if cs != [] {
      StepLinkedIff(t, ea, eb, cs[0]);
      RunKeepsLinked(Step(t, ea, eb, cs[0]), ea, eb, cs[1..]);
    }
  }

  lemma StepKeepsNoRepeats(t: Tables, ea: End, eb: End, c: LinkCommand)
    requires Linked(t, ea, eb) && ProperCommand(t, c) && NoCellRepeats(t, ea, eb) && NoValueRepeats(c.changes)
    ensures NoCellRepeats(Step(t, ea, eb, c), ea, eb)
  {
    if c.onA {
      DupFreeKept(t.a, ea.field, t.b, eb, c.changes);
    } else {
      SwapLinked(t, ea, eb);
      DupFreeKept(t.b, eb.field, t.a, ea, c.changes);
    }
  }

  /** And no cell of the link field comes to hold a record twice. */
  lemma {:induction false} RunKeepsNoRepeats(t: Tables, ea: End, eb: End, cs: seq<LinkCommand>)
    requires Linked(t, ea, eb) && ProperRun(t, ea, eb, cs) && AllAddExisting(t, ea, eb, cs)
    requires NoCellRepeats(t, ea, eb) && forall i :: 0 <= i < |cs| ==> NoValueRepeats(cs[i].changes)
    ensures NoCellRepeats(Run(t, ea, eb, cs), ea, eb)
    decreases |cs|
  {
    if cs != [] {
      StepLinkedIff(t, ea, eb, cs[0]);
      StepKeepsNoRepeats(t, ea, eb, cs[0]);
      RunKeepsNoRepeats(Step(t, ea, eb, cs[0]), ea, eb, cs[1..]);
    }
  }
}
