/**
 The ghost record that ties the steps an expansion emits to the address graph.

 Every predicate is relative to `done`, the steps of the occurrence already expanded, so that the same definitions
 serve the expansion loop and its result.
 */
module Traces {
  import opened Json
  import opened Graphs
  import opened Text
  import opened Pipelines
  import opened Occurrences

  /**
   The emitted `steps` and, in the same order, the addresses of their `blocks`; `numbered` in the order fresh names were
   drawn, `occurrences` in expansion order.
   */
  datatype Trace = Trace(names: Names, steps: seq<Step>, blocks: seq<Address>, numbered: seq<Address>, occurrences: seq<Address>)

  function LinkedName(n: nat): string {
    "__linked_" + Decimal(n)
  }

  function Under(t: string, s: seq<Address>): (r: seq<Address>)
    ensures |r| == |s| && forall i :: 0 <= i < |s| ==> r[i] == [t] + s[i]
  {
    seq(|s|, i requires 0 <= i < |s| => [t] + s[i])
  }

  ghost function Graft(t: string, below: Names): (r: Names)
    ensures Grafted(t, below, r)
    ensures forall a :: a in r ==> a != [] && a[0] == t && a[1..] in below
  {
    var r := map a | a in (set x | x in below :: [t] + x) :: below[a[1..]];
    assert forall x: Address :: ([t] + x)[1..] == x;
    r
  }

  ghost predicate Named(lib: Library, occ: Occurrence, done: set<string>, a: Address) {
    if a == [] then occ.entry.Some?
    else if |a| == 1 then Kept(occ, a[0]) || (occ.entry.None? && a[0] in SourceIds(occ.pipeline))
    else a[0] in done && IsBlock(lib, occ, a)
  }

  ghost predicate NamesOk(lib: Library, occ: Occurrence, done: set<string>, names: Names) {
    forall a :: a in names <==> Named(lib, occ, done, a)
  }

  ghost predicate Emitted(lib: Library, occ: Occurrence, done: set<string>, a: Address) {
    IsBlock(lib, occ, a) && a[0] in done
  }

  /** `blocks` lists what has been emitted, once. */
  ghost predicate Listed(lib: Library, occ: Occurrence, done: set<string>, blocks: seq<Address>) {
    Distinct(blocks) && forall a :: a in blocks <==> Emitted(lib, occ, done, a)
  }

  ghost predicate AllRender(lib: Library, occ: Occurrence, names: Names, blocks: seq<Address>, out: seq<Step>) {
    |blocks| == |out| && forall i :: 0 <= i < |out| ==> Renders(lib, occ, names, blocks[i], out[i])
  }

  /** The blocks expanded so far were emitted once each, renamed and otherwise unchanged. */
  ghost predicate BlocksOk(lib: Library, occ: Occurrence, done: set<string>, names: Names, blocks: seq<Address>, out: seq<Step>) {
    && Listed(lib, occ, done, blocks)
    && AllRender(lib, occ, names, blocks, out)
  }

  ghost predicate Fresh(lib: Library, occ: Occurrence, done: set<string>, a: Address) {
    IsBlock(lib, occ, a) && if |a| == 1 then occ.entry.Some? else a[0] in done
  }

  /** Linked blocks carry consecutive reserved names, starting after `first`. */
  ghost predicate NumberedOk(lib: Library, occ: Occurrence, done: set<string>, names: Names, numbered: seq<Address>, first: nat) {
    && Distinct(numbered)
    && (forall a :: a in numbered <==> Fresh(lib, occ, done, a))
    && (forall j :: 0 <= j < |numbered| ==> NameOf(names, numbered[j]) == LinkedName(first + 1 + j))
  }

  ghost predicate Opened(lib: Library, occ: Occurrence, done: set<string>, at: Address) {
    at == [] || (at[0] in done && OccurrenceAt(lib, occ, at).Some?)
  }

  /** Following `at` never meets a pipeline id twice, nor one of `forbidden`. */
  ghost predicate ChainFresh(lib: Library, occ: Occurrence, at: Address, forbidden: set<string>)
    decreases |at|
  {
    && occ.pipelineId !in forbidden
    && (at != [] && Linked(lib, occ, at[0]).Some? ==>
          ChainFresh(lib, Linked(lib, occ, at[0]).value, at[1..], forbidden + {occ.pipelineId}))
  }

  ghost predicate SoundAt(lib: Library, occ: Occurrence, at: Address, forbidden: set<string>) {
    && OccurrenceAt(lib, occ, at).Some?
    && Sound(OccurrenceAt(lib, occ, at).value)
    && ChainFresh(lib, occ, at, forbidden)
  }

  ghost predicate OccurrencesOk(lib: Library, occ: Occurrence, done: set<string>, ats: seq<Address>, forbidden: set<string>) {
    && Distinct(ats)
    && (forall at :: at in ats <==> Opened(lib, occ, done, at))
    && (forall at :: at in ats ==> SoundAt(lib, occ, at, forbidden))
  }

  // ---- budgets -------------------------------------------------------------

  datatype Budget = BlockBudget | TransferBudget

  function Weight(b: Budget, p: Pipeline): nat {
    if b.BlockBudget? then |p.sources| + |p.steps| else |PinnedReferences(p)|
  }

  ghost function Charge(lib: Library, occ: Occurrence, b: Budget, at: Address): nat {
    var o := OccurrenceAt(lib, occ, at);
    if o.None? then 0 else Weight(b, o.value.pipeline)
  }

  /** What a list of occurrences costs, every use of a pipeline being charged again. */
  ghost function Total(lib: Library, occ: Occurrence, b: Budget, ats: seq<Address>): nat {
    if ats == [] then 0 else Total(lib, occ, b, ats[..|ats| - 1]) + Charge(lib, occ, b, ats[|ats| - 1])
  }

  lemma {:induction false} TotalConcat(lib: Library, occ: Occurrence, b: Budget, x: seq<Address>, y: seq<Address>)
    ensures Total(lib, occ, b, x + y) == Total(lib, occ, b, x) + Total(lib, occ, b, y)
  {
    if y == [] {
      assert x + y == x;
    } else {
      assert (x + y)[..|x + y| - 1] == x + y[..|y| - 1];
      TotalConcat(lib, occ, b, x, y[..|y| - 1]);
    }
  }

  lemma {:induction false} TotalUnder(lib: Library, occ: Occurrence, b: Budget, t: string, ats: seq<Address>)
    requires Linked(lib, occ, t).Some?
    ensures Total(lib, occ, b, Under(t, ats)) == Total(lib, Linked(lib, occ, t).value, b, ats)
  {
    if ats != [] {
      var front := ats[..|ats| - 1];
      assert Under(t, ats)[..|ats| - 1] == Under(t, front);
      TotalUnder(lib, occ, b, t, front);
      OccurrenceBelow(lib, occ, t, ats[|ats| - 1]);
    }
  }

  // ---- growing `done` by one step ------------------------------------------

  lemma DistinctConcat(a: seq<Address>, b: seq<Address>)
    requires Distinct(a) && Distinct(b) && forall x :: x in a ==> x !in b
    ensures Distinct(a + b)
  {
    var c := a + b;
    forall i, j | 0 <= i < j < |c| ensures c[i] != c[j] {
      if i < |a| <= j {
        assert a[i] in a && b[j - |a|] in b;
      }
    }
  }

  lemma UnderDistinct(t: string, s: seq<Address>)
    requires Distinct(s)
    ensures Distinct(Under(t, s))
  {
    forall i, j | 0 <= i < j < |s| ensures [t] + s[i] != [t] + s[j] {
      assert ([t] + s[i])[1..] == s[i] && ([t] + s[j])[1..] == s[j];
    }
  }

  lemma UnderMember(t: string, s: seq<Address>, a: Address)
    ensures a in Under(t, s) <==> a != [] && a[0] == t && a[1..] in s
  {
    if a in Under(t, s) {
      var i :| 0 <= i < |s| && Under(t, s)[i] == a;
      assert ([t] + s[i])[1..] == s[i];
    }
    if a != [] && a[0] == t && a[1..] in s {
      var i :| 0 <= i < |s| && s[i] == a[1..];
      assert Under(t, s)[i] == a;
    }
  }

  /** Nothing lies below a block that links nothing. */
  lemma NothingBelow(lib: Library, occ: Occurrence, done: set<string>, t: string)
    requires Linked(lib, occ, t).None?
    ensures forall a :: Named(lib, occ, done + {t}, a) <==> Named(lib, occ, done, a)
    ensures forall a :: Fresh(lib, occ, done + {t}, a) <==> Fresh(lib, occ, done, a)
    ensures forall at :: Opened(lib, occ, done + {t}, at) <==> Opened(lib, occ, done, at)
    ensures forall a :: Emitted(lib, occ, done + {t}, a) <==> Emitted(lib, occ, done, a) || (a == [t] && Kept(occ, t))
  {
    forall a | IsBlock(lib, occ, a) && a[0] == t ensures a == [t] && Kept(occ, t) {
      BlockStart(lib, occ, a);
      assert a == [a[0]];
    }
    forall at: Address | at != [] && at[0] == t ensures OccurrenceAt(lib, occ, at).None? {}
    BlockHere(lib, occ, t);
  }

  /** Below a transfer lie exactly the addresses of the occurrence it links. */
  lemma Below(lib: Library, occ: Occurrence, done: set<string>, t: string, a: Address)
    requires Linked(lib, occ, t).Some? && t !in done
    ensures var child := Linked(lib, occ, t).value;
            var all := StepIds(child.pipeline);
            var below := a != [] && a[0] == t;
            && (Named(lib, occ, done + {t}, a) <==> Named(lib, occ, done, a) || (below && Named(lib, child, all, a[1..])))
            && (Fresh(lib, occ, done + {t}, a) <==> Fresh(lib, occ, done, a) || (below && Fresh(lib, child, all, a[1..])))
            && (Opened(lib, occ, done + {t}, a) <==> Opened(lib, occ, done, a) || (below && Opened(lib, child, all, a[1..])))
            && (Emitted(lib, occ, done + {t}, a) <==>
                Emitted(lib, occ, done, a) || a == [t] || (below && Emitted(lib, child, all, a[1..])))
  {
    var child := Linked(lib, occ, t).value;
    BlockHere(lib, occ, t);
    if a != [] && a[0] == t {
      var x := a[1..];
      assert a == [t] + x;
      OccurrenceBelow(lib, occ, t, x);
      if x != [] {
        BlockBelow(lib, occ, t, x);
        if IsBlock(lib, child, x) { BlockStart(lib, child, x); }
      }
    }
  }

  // ---- one more step of an occurrence --------------------------------------

  ghost predicate Traced(lib: Library, occ: Occurrence, done: set<string>, tr: Trace, first: nat,
                         forbidden: set<string>) {
    && NamesOk(lib, occ, done, tr.names)
    && BlocksOk(lib, occ, done, tr.names, tr.blocks, tr.steps)
    && NumberedOk(lib, occ, done, tr.names, tr.numbered, first)
    && OccurrencesOk(lib, occ, done, tr.occurrences, forbidden)
  }

  /** A step that was not kept leaves no trace. */
  lemma GrowDropped(lib: Library, occ: Occurrence, done: set<string>, tr: Trace, first: nat,
                    forbidden: set<string>, t: string)
    requires Traced(lib, occ, done, tr, first, forbidden) && !Kept(occ, t)
    ensures Traced(lib, occ, done + {t}, tr, first, forbidden)
  {
    NothingBelow(lib, occ, done, t);
  }

  function Emit(tr: Trace, t: string, s: Step): Trace {
    tr.(steps := tr.steps + [s], blocks := tr.blocks + [[t]])
  }

  /** A kept step that links nothing is emitted. */
  lemma GrowPlain(lib: Library, occ: Occurrence, done: set<string>, tr: Trace, first: nat,
                  forbidden: set<string>, t: string, s: Step)
    requires Traced(lib, occ, done, tr, first, forbidden) && t !in done
    requires Kept(occ, t) && Linked(lib, occ, t).None? && Renders(lib, occ, tr.names, [t], s)
    ensures Traced(lib, occ, done + {t}, Emit(tr, t, s), first, forbidden)
  {
    NothingBelow(lib, occ, done, t);
    DistinctConcat(tr.blocks, [[t]]);
  }

  function Joined(tr: Trace, t: string, s: Step, below: Trace, names: Names): Trace {
    Trace(names, tr.steps + [s] + below.steps, tr.blocks + [[t]] + Under(t, below.blocks),
          tr.numbered + Under(t, below.numbered), tr.occurrences + Under(t, below.occurrences))
  }

  lemma GrowNames(lib: Library, occ: Occurrence, done: set<string>, t: string, names: Names, below: Names)
    requires NamesOk(lib, occ, done, names) && t !in done
    requires Linked(lib, occ, t).Some?
    requires NamesOk(lib, Linked(lib, occ, t).value, StepIds(Linked(lib, occ, t).value.pipeline), below)
    requires NameOf(below, []) == NameOf(names, [t])
    ensures NamesOk(lib, occ, done + {t}, names + Graft(t, below))
    ensures Extends(names, names + Graft(t, below)) && Grafted(t, below, names + Graft(t, below))
  {
    var child := Linked(lib, occ, t).value;
    var all := StepIds(child.pipeline);
    var more := names + Graft(t, below);
    forall a ensures a in Graft(t, below) <==> a != [] && a[0] == t && Named(lib, child, all, a[1..]) {
      if a != [] && a[0] == t && a[1..] in below {
        assert a == [t] + a[1..];
      }
    }
    forall a ensures a in more <==> Named(lib, occ, done + {t}, a) {
      Below(lib, occ, done, t, a);
    }
    forall a | a in names ensures more[a] == names[a] {
      if a in Graft(t, below) {
        assert a == [t] + a[1..];
        Below(lib, occ, done, t, a);
        assert Named(lib, occ, done, a);
        assert a == [t];
        assert [] in below && a[1..] == [];
      }
    }
  }

  lemma GrowListed(lib: Library, occ: Occurrence, done: set<string>, t: string, blocks: seq<Address>, blocksBelow: seq<Address>)
    requires Listed(lib, occ, done, blocks) && t !in done && Linked(lib, occ, t).Some?
    requires Listed(lib, Linked(lib, occ, t).value, StepIds(Linked(lib, occ, t).value.pipeline), blocksBelow)
    ensures Listed(lib, occ, done + {t}, blocks + [[t]] + Under(t, blocksBelow))
  {
    var blocks' := blocks + [[t]] + Under(t, blocksBelow);
    forall a ensures a in blocks' <==> Emitted(lib, occ, done + {t}, a) {
      Below(lib, occ, done, t, a);
      UnderMember(t, blocksBelow, a);
    }
    assert [t] !in blocks;
    DistinctConcat(blocks, [[t]]);
    UnderDistinct(t, blocksBelow);
    forall a | a in blocks + [[t]] ensures a !in Under(t, blocksBelow) {
      UnderMember(t, blocksBelow, a);
    }
    DistinctConcat(blocks + [[t]], Under(t, blocksBelow));
  }

  lemma GrowBlocks(lib: Library, occ: Occurrence, done: set<string>, t: string, names: Names, more: Names,
                   blocks: seq<Address>, out: seq<Step>, s: Step, below: Names, blocksBelow: seq<Address>, outBelow: seq<Step>)
    requires BlocksOk(lib, occ, done, names, blocks, out) && t !in done
    requires Linked(lib, occ, t).Some? && Renders(lib, occ, names, [t], s)
    requires BlocksOk(lib, Linked(lib, occ, t).value, StepIds(Linked(lib, occ, t).value.pipeline), below, blocksBelow, outBelow)
    requires Extends(names, more) && Grafted(t, below, more)
    ensures BlocksOk(lib, occ, done + {t}, more, blocks + [[t]] + Under(t, blocksBelow), out + [s] + outBelow)
  {
    GrowListed(lib, occ, done, t, blocks, blocksBelow);
    AllRenderStable(lib, occ, names, more, blocks, out);
    RendersStable(lib, occ, names, more, [t], s);
    AllRenderConcat(lib, occ, more, blocks, out, [[t]], [s]);
    AllRenderBelow(lib, occ, t, below, more, blocksBelow, outBelow);
    AllRenderConcat(lib, occ, more, blocks + [[t]], out + [s], Under(t, blocksBelow), outBelow);
  }

  lemma AllRenderConcat(lib: Library, occ: Occurrence, names: Names, blocks: seq<Address>, out: seq<Step>,
                        blocks': seq<Address>, out': seq<Step>)
    requires AllRender(lib, occ, names, blocks, out) && AllRender(lib, occ, names, blocks', out')
    ensures AllRender(lib, occ, names, blocks + blocks', out + out')
  {
  }

  lemma AllRenderStable(lib: Library, occ: Occurrence, names: Names, more: Names, blocks: seq<Address>, out: seq<Step>)
    requires AllRender(lib, occ, names, blocks, out) && Extends(names, more)
    ensures AllRender(lib, occ, more, blocks, out)
  {
    forall i | 0 <= i < |out| ensures Renders(lib, occ, more, blocks[i], out[i]) {
      RendersStable(lib, occ, names, more, blocks[i], out[i]);
    }
  }

  lemma AllRenderBelow(lib: Library, occ: Occurrence, t: string, below: Names, names: Names, blocks: seq<Address>, out: seq<Step>)
    requires Linked(lib, occ, t).Some? && Grafted(t, below, names)
    requires AllRender(lib, Linked(lib, occ, t).value, below, blocks, out)
    ensures AllRender(lib, occ, names, Under(t, blocks), out)
  {
    forall i | 0 <= i < |out| ensures Renders(lib, occ, names, Under(t, blocks)[i], out[i]) {
      RendersBelow(lib, occ, t, below, names, blocks[i], out[i]);
    }
  }

  lemma GrowNumbered(lib: Library, occ: Occurrence, done: set<string>, t: string, names: Names, more: Names,
                     numbered: seq<Address>, first: nat, below: Names, numberedBelow: seq<Address>)
    requires NumberedOk(lib, occ, done, names, numbered, first) && t !in done
    requires NamesOk(lib, occ, done, names)
    requires Linked(lib, occ, t).Some?
    requires NamesOk(lib, Linked(lib, occ, t).value, StepIds(Linked(lib, occ, t).value.pipeline), below)
    requires NumberedOk(lib, Linked(lib, occ, t).value, StepIds(Linked(lib, occ, t).value.pipeline), below, numberedBelow,
                        first + |numbered|)
    requires Extends(names, more) && Grafted(t, below, more)
    ensures NumberedOk(lib, occ, done + {t}, more, numbered + Under(t, numberedBelow), first)
  {
    var child := Linked(lib, occ, t).value;
    var all := StepIds(child.pipeline);
    var numbered' := numbered + Under(t, numberedBelow);
    forall a ensures a in numbered' <==> Fresh(lib, occ, done + {t}, a) {
      Below(lib, occ, done, t, a);
      UnderMember(t, numberedBelow, a);
    }
    UnderDistinct(t, numberedBelow);
    forall a | a in numbered ensures a !in Under(t, numberedBelow) {
      UnderMember(t, numberedBelow, a);
    }
    DistinctConcat(numbered, Under(t, numberedBelow));
    forall j | 0 <= j < |numbered'| ensures NameOf(more, numbered'[j]) == LinkedName(first + 1 + j) {
      if j < |numbered| {
        FreshIsNamed(lib, occ, done, numbered[j]);
      } else {
        FreshIsNamed(lib, child, all, numberedBelow[j - |numbered|]);
      }
    }
  }

  lemma FreshIsNamed(lib: Library, occ: Occurrence, done: set<string>, a: Address)
    requires Fresh(lib, occ, done, a)
    ensures Named(lib, occ, done, a)
  {
    BlockStart(lib, occ, a);
  }

  lemma GrowOccurrences(lib: Library, occ: Occurrence, done: set<string>, t: string, ats: seq<Address>,
                        forbidden: set<string>, atsBelow: seq<Address>)
    requires OccurrencesOk(lib, occ, done, ats, forbidden) && t !in done
    requires Linked(lib, occ, t).Some? && occ.pipelineId !in forbidden
    requires OccurrencesOk(lib, Linked(lib, occ, t).value, StepIds(Linked(lib, occ, t).value.pipeline), atsBelow,
                           forbidden + {occ.pipelineId})
    ensures OccurrencesOk(lib, occ, done + {t}, ats + Under(t, atsBelow), forbidden)
  {
    var ats' := ats + Under(t, atsBelow);
    forall at ensures at in ats' <==> Opened(lib, occ, done + {t}, at) {
      Below(lib, occ, done, t, at);
      UnderMember(t, atsBelow, at);
    }
    UnderDistinct(t, atsBelow);
    forall at | at in ats ensures at !in Under(t, atsBelow) {
      UnderMember(t, atsBelow, at);
    }
    DistinctConcat(ats, Under(t, atsBelow));
    forall at | at in ats' ensures SoundAt(lib, occ, at, forbidden) {
      if at !in ats {
        UnderMember(t, atsBelow, at);
        assert at == [t] + at[1..];
        OccurrenceBelow(lib, occ, t, at[1..]);
        assert SoundAt(lib, Linked(lib, occ, t).value, at[1..], forbidden + {occ.pipelineId});
      }
    }
  }

  /** A transfer is emitted and followed by everything below it. */
  lemma GrowLinked(lib: Library, occ: Occurrence, done: set<string>, tr: Trace, first: nat, forbidden: set<string>,
                   t: string, s: Step, child: Occurrence, below: Trace, more: Names)
    requires Traced(lib, occ, done, tr, first, forbidden) && t !in done && occ.pipelineId !in forbidden
    requires Linked(lib, occ, t) == Some(child) && Renders(lib, occ, tr.names, [t], s)
    requires Traced(lib, child, StepIds(child.pipeline), below, first + |tr.numbered|, forbidden + {occ.pipelineId})
    requires NameOf(below.names, []) == NameOf(tr.names, [t])
    requires more == tr.names + Graft(t, below.names)
    ensures Traced(lib, occ, done + {t}, Joined(tr, t, s, below, more), first, forbidden)
    ensures Extends(tr.names, more)
  {
    GrowNames(lib, occ, done, t, tr.names, below.names);
    GrowBlocks(lib, occ, done, t, tr.names, more, tr.blocks, tr.steps, s, below.names, below.blocks, below.steps);
    GrowNumbered(lib, occ, done, t, tr.names, more, tr.numbered, first, below.names, below.numbered);
    GrowOccurrences(lib, occ, done, t, tr.occurrences, forbidden, below.occurrences);
  }
}
