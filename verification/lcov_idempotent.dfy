/** When merging the merged report again gives the same text, byte for byte. */
module LcovIdempotent {
  import opened Options
  import opened Text
  import opened LcovLines
  import opened LcovFacts
  import opened LcovMerge
  import opened LcovRoundTrip
  import LcovOrder

  // ---------------------------------------------------------------------------
  // The records of one file
  // ---------------------------------------------------------------------------

  predicate Concerns(f: Fact, sf: string) {
    f.file == sf && f.kind != Opened
  }

  function OfFile(facts: seq<Fact>, sf: string): seq<Fact> {
    if facts == [] then []
    else
      var f := facts[|facts| - 1];
      var init := OfFile(facts[..|facts| - 1], sf);
      if Concerns(f, sf) then init + [f] else init
  }

  lemma {:induction false} OfFileAppend(a: seq<Fact>, b: seq<Fact>, sf: string)
    ensures OfFile(a + b, sf) == OfFile(a, sf) + OfFile(b, sf)
  {
    if b == [] {
      assert a + b == a;
    } else {
      assert (a + b)[..|a + b| - 1] == a + b[..|b| - 1];
      OfFileAppend(a, b[..|b| - 1], sf);
    }
  }

  lemma {:induction false} OfFileAllOrNone(facts: seq<Fact>, sf: string)
    ensures (forall f :: f in facts ==> Concerns(f, sf)) ==> OfFile(facts, sf) == facts
    ensures (forall f :: f in facts ==> !Concerns(f, sf)) ==> OfFile(facts, sf) == []
  {
    if facts != [] {
      OfFileAllOrNone(facts[..|facts| - 1], sf);
    }
  }

  lemma {:induction false} CovOfFile(facts: seq<Fact>, sf: string)
    ensures CovOf(OfFile(facts, sf), sf) == CovOf(facts, sf)
  {
    if facts != [] {
      hide CovOf, Apply;
      var f, init := facts[|facts| - 1], facts[..|facts| - 1];
      assert facts == init + [f];
      CovOfFile(init, sf);
      CovStep(init, f, sf);
      CovStep(OfFile(init, sf), f, sf);
      IgnoresOpened(CovOf(init, sf), f);
    }
  }

  lemma IgnoresOpened(cov: FileCov, f: Fact)
    ensures f.kind == Opened ==> Apply(cov, f) == cov
  {
  }

  function RecordsOf(sf: string, cov: FileCov): seq<Fact> {
    FnFacts(sf, cov) + CallFacts(sf, cov) + BranchFacts(sf, cov) + HitFacts(sf, cov)
  }

  lemma RecordsConcern(sf: string, cov: FileCov)
    ensures forall f :: f in RecordsOf(sf, cov) ==> Concerns(f, sf)
  {
  }

  lemma BlockOfFile(block: string, cov: FileCov, sf: string)
    ensures OfFile(BlockFacts(block, cov), sf) == if sf == block then RecordsOf(block, cov) else []
  {
    RecordsConcern(block, cov);
    hide RecordsOf, OfFile, FnFacts, CallFacts, BranchFacts, HitFacts;
    var open := [Fact("", Opened, block, None)];
    OfFileAppend(open, RecordsOf(block, cov), sf);
    OfFileAllOrNone(open, sf);
    OfFileAllOrNone(RecordsOf(block, cov), sf);
    assert BlockFacts(block, cov) == open + RecordsOf(block, cov) by { BlockIsOpenAndRecords(block, cov); }
  }

  lemma BlockIsOpenAndRecords(sf: string, cov: FileCov)
    ensures BlockFacts(sf, cov) == [Fact("", Opened, sf, None)] + RecordsOf(sf, cov)
  {
  }

  lemma {:induction false} BlocksOfFile(order: seq<string>, files: map<string, FileCov>, sf: string)
    requires Distinct(order) && forall s :: s in order ==> s in files
    ensures OfFile(BlocksFacts(order, files), sf) == if sf in order then RecordsOf(sf, files[sf]) else []
  {
    if order != [] {
      hide RecordsOf, BlockFacts;
      var last, init := order[|order| - 1], order[..|order| - 1];
      assert order == init + [last];
      BlocksOfFile(init, files, sf);
      OfFileAppend(BlocksFacts(init, files), BlockFacts(last, files[last]), sf);
      BlockOfFile(last, files[last], sf);
    }
  }

  lemma {:induction false} KeysAppend(a: seq<Fact>, b: seq<Fact>, sf: string, kind: Kind)
    ensures Keys(a + b, sf, kind) == Keys(a, sf, kind) + Keys(b, sf, kind)
  {
    if b == [] {
      assert a + b == a;
    } else {
      assert (a + b)[..|a + b| - 1] == a + b[..|b| - 1];
      KeysAppend(a, b[..|b| - 1], sf, kind);
    }
  }

  lemma {:induction false} OrderOfBlocks(order: seq<string>, files: map<string, FileCov>)
    requires Distinct(order) && forall s :: s in order ==> s in files
    ensures Keys(BlocksFacts(order, files), "", Opened) == order
  {
    if order != [] {
      hide RecordsOf;
      var last, init := order[|order| - 1], order[..|order| - 1];
      assert order == init + [last];
      OrderOfBlocks(init, files);
      KeysAppend(BlocksFacts(init, files), BlockFacts(last, files[last]), "", Opened);
      OpenedOfBlock(last, files[last]);
    }
  }

  lemma OpenedOfBlock(sf: string, cov: FileCov)
    ensures Keys(BlockFacts(sf, cov), "", Opened) == [sf]
  {
    BlockIsOpenAndRecords(sf, cov);
    RecordsConcern(sf, cov);
    hide RecordsOf;
    var open := [Fact("", Opened, sf, None)];
    KeysAppend(open, RecordsOf(sf, cov), "", Opened);
    NoKeys(RecordsOf(sf, cov), "", Opened);
    assert open[..0] == [];
  }

  lemma {:induction false} FirstSeenDistinct(keys: seq<string>)
    ensures |FirstSeen(keys)| <= |keys|
    ensures Distinct(keys) ==> FirstSeen(keys) == keys
    ensures |FirstSeen(keys)| == |keys| ==> Distinct(keys)
  {
    if keys != [] {
      var k, init := keys[|keys| - 1], keys[..|keys| - 1];
      assert keys == init + [k];
      FirstSeenDistinct(init);
      FirstSeenMembers(init);
    }
  }

  // ---------------------------------------------------------------------------
  // The coverage read back from the records of one file
  // ---------------------------------------------------------------------------

  lemma {:induction false} KeysAbout(sf: string, kind: Kind, keys: seq<string>, amount: int -> Option<int>, n: nat)
    requires n <= |keys|
    ensures Keys(FactsAbout(sf, kind, keys, amount)[..n], sf, kind) == keys[..n]
  {
    if n > 0 {
      var facts := FactsAbout(sf, kind, keys, amount);
      KeysAbout(sf, kind, keys, amount, n - 1);
      PrefixStep(facts, n);
      KeysStep(facts[..n - 1], facts[n - 1], sf, kind);
    }
  }

  lemma KeysOfRecords(sf: string, cov: FileCov)
    ensures var facts := RecordsOf(sf, cov);
      && Keys(facts, sf, Fn) == cov.fnOrder
      && Keys(facts, sf, Call) == Reread(cov)
      && Keys(facts, sf, Branch) == cov.brda.order
      && Keys(facts, sf, Hit) == cov.da.order
  {
    KeysOfPart(sf, Fn, cov.fnOrder, NoAmount());
    KeysOfPart(sf, Call, Reread(cov), AmountOf(cov.fnda));
    KeysOfPart(sf, Branch, cov.brda.order, TakenOf(cov.brda, cov.brdaNumeric));
    KeysOfPart(sf, Hit, cov.da.order, AmountOf(cov.da));
    hide Keys, Reread, FactsAbout;
    KeysOfParts(FnFacts(sf, cov), CallFacts(sf, cov), BranchFacts(sf, cov), HitFacts(sf, cov), sf, Fn);
    KeysOfParts(FnFacts(sf, cov), CallFacts(sf, cov), BranchFacts(sf, cov), HitFacts(sf, cov), sf, Call);
    KeysOfParts(FnFacts(sf, cov), CallFacts(sf, cov), BranchFacts(sf, cov), HitFacts(sf, cov), sf, Branch);
    KeysOfParts(FnFacts(sf, cov), CallFacts(sf, cov), BranchFacts(sf, cov), HitFacts(sf, cov), sf, Hit);
  }

  lemma KeysOfParts(fn: seq<Fact>, call: seq<Fact>, branch: seq<Fact>, hit: seq<Fact>, sf: string, kind: Kind)
    ensures Keys(fn + call + branch + hit, sf, kind)
         == Keys(fn, sf, kind) + Keys(call, sf, kind) + Keys(branch, sf, kind) + Keys(hit, sf, kind)
  {
    hide Keys;
    KeysAppend(fn + call + branch, hit, sf, kind);
    KeysAppend(fn + call, branch, sf, kind);
    KeysAppend(fn, call, sf, kind);
  }

  lemma KeysOfPart(sf: string, kind: Kind, keys: seq<string>, amount: int -> Option<int>)
    ensures forall k :: Keys(FactsAbout(sf, kind, keys, amount), sf, k) == if k == kind then keys else []
  {
    var facts := FactsAbout(sf, kind, keys, amount);
    KeysAbout(sf, kind, keys, amount, |keys|);
    assert facts[..|keys|] == facts && keys[..|keys|] == keys;
    forall k | k != kind ensures Keys(facts, sf, k) == [] {
      NoKeys(facts, sf, k);
    }
  }

  lemma {:induction false} SumAbout(sf: string, kind: Kind, keys: seq<string>, amount: int -> Option<int>, i: nat, n: nat)
    requires Distinct(keys) && i < |keys| && n <= |keys|
    ensures var facts := FactsAbout(sf, kind, keys, amount);
      SumAt(facts[..n], sf, kind, keys[i]) == if i < n then Amount(facts[i]) else 0
  {
    if n > 0 {
      hide SumAt, FactsAbout, Amount;
      var facts := FactsAbout(sf, kind, keys, amount);
      var init, f := facts[..n - 1], facts[n - 1];
      SumAbout(sf, kind, keys, amount, i, n - 1);
      PrefixStep(facts, n);
      SumAtStep(init, f, sf, kind, keys[i]);
      assert f.key == keys[n - 1] && Is(f, sf, kind);
      assert f.key == keys[i] <==> i == n - 1;
    }
  }

  lemma {:induction false} SumAtNone(facts: seq<Fact>, sf: string, kind: Kind, k: string)
    requires forall f :: f in facts ==> f.kind != kind
    ensures SumAt(facts, sf, kind, k) == 0
  {
    NoKeys(facts, sf, kind);
    SumAtUnseen(facts, sf, kind, k);
  }

  lemma SumOfParts(fn: seq<Fact>, call: seq<Fact>, branch: seq<Fact>, hit: seq<Fact>, sf: string, kind: Kind, k: string)
    ensures SumAt(fn + call + branch + hit, sf, kind, k)
         == SumAt(fn, sf, kind, k) + SumAt(call, sf, kind, k) + SumAt(branch, sf, kind, k) + SumAt(hit, sf, kind, k)
  {
    hide SumAt;
    LcovOrder.SumAtAppend(fn + call + branch, hit, sf, kind, k);
    LcovOrder.SumAtAppend(fn + call, branch, sf, kind, k);
    LcovOrder.SumAtAppend(fn, call, sf, kind, k);
  }

  lemma SumOfRecords(sf: string, cov: FileCov, kind: Kind, k: string)
    ensures SumAt(RecordsOf(sf, cov), sf, kind, k)
         == SumAt(match kind
                  case Call => CallFacts(sf, cov)
                  case Branch => BranchFacts(sf, cov)
                  case Hit => HitFacts(sf, cov)
                  case Fn => FnFacts(sf, cov)
                  case Opened => [], sf, kind, k)
  {
    hide SumAt;
    SumOfParts(FnFacts(sf, cov), CallFacts(sf, cov), BranchFacts(sf, cov), HitFacts(sf, cov), sf, kind, k);
    if kind != Fn { SumAtNone(FnFacts(sf, cov), sf, kind, k); }
    if kind != Call { SumAtNone(CallFacts(sf, cov), sf, kind, k); }
    if kind != Branch { SumAtNone(BranchFacts(sf, cov), sf, kind, k); }
    if kind != Hit { SumAtNone(HitFacts(sf, cov), sf, kind, k); }
    SumAtNone([], sf, kind, k);
  }

  /** What a merged file's coverage satisfies. */
  ghost predicate WellFormedTally(t: Tally) {
    Distinct(t.order) && forall k :: k in t.order <==> k in t.counts
  }

  ghost predicate WellFormed(cov: FileCov) {
    && WellFormedTally(cov.da) && WellFormedTally(cov.fnda) && WellFormedTally(cov.brda)
    && Distinct(cov.fnOrder) && cov.fnSeen == (set k | k in cov.fnOrder)
    && (forall k :: k in cov.brdaNumeric ==> k in cov.brda.order)
    && (forall k :: k in cov.brda.order && k !in cov.brdaNumeric ==> cov.brda.counts[k] == 0)
  }

  lemma SumOfPart(sf: string, kind: Kind, keys: seq<string>, amount: int -> Option<int>, i: nat)
    requires Distinct(keys) && i < |keys|
    ensures SumAt(FactsAbout(sf, kind, keys, amount), sf, kind, keys[i])
         == if amount(i).Some? then amount(i).value else 0
  {
    var facts := FactsAbout(sf, kind, keys, amount);
    SumAbout(sf, kind, keys, amount, i, |keys|);
    assert facts[..|keys|] == facts;
  }

  lemma TallyReadBack(sf: string, kind: Kind, t: Tally, amount: int -> Option<int>, facts: seq<Fact>)
    requires WellFormedTally(t) && Keys(facts, sf, kind) == t.order
    requires forall i :: 0 <= i < |t.order| ==>
               (if amount(i).Some? then amount(i).value else 0) == t.counts[t.order[i]]
    requires forall k :: SumAt(facts, sf, kind, k) == SumAt(FactsAbout(sf, kind, t.order, amount), sf, kind, k)
    ensures Tallied(facts, sf, kind) == t
  {
    hide SumAt, Keys, FirstSeen;
    FirstSeenDistinct(t.order);
    var back := Tallied(facts, sf, kind);
    forall k | k in t.order
      ensures back.counts[k] == t.counts[k]
    {
      var i :| 0 <= i < |t.order| && t.order[i] == k;
      SumOfPart(sf, kind, t.order, amount, i);
    }
    assert back.counts == t.counts;
  }

  lemma NumericReadBack(sf: string, cov: FileCov)
    requires WellFormed(cov)
    ensures Numeric(RecordsOf(sf, cov), sf) == cov.brdaNumeric
  {
    var facts := RecordsOf(sf, cov);
    forall k | k in cov.brdaNumeric
      ensures k in Numeric(facts, sf)
    {
      var i :| 0 <= i < |cov.brda.order| && cov.brda.order[i] == k;
      var f := BranchFacts(sf, cov)[i];
      assert f in facts && Is(f, sf, Branch) && f.amount.Some? && f.key == k;
    }
    forall k | k in Numeric(facts, sf)
      ensures k in cov.brdaNumeric
    {
      var f :| f in facts && Is(f, sf, Branch) && f.amount.Some? && f.key == k;
      assert f in BranchFacts(sf, cov);
    }
  }

  lemma HitsReadBack(sf: string, cov: FileCov)
    requires WellFormed(cov)
    ensures Tallied(RecordsOf(sf, cov), sf, Hit) == cov.da
  {
    hide RecordsOf, Keys, SumAt;
    KeysOfRecords(sf, cov);
    forall k { SumOfRecords(sf, cov, Hit, k); }
    TallyReadBack(sf, Hit, cov.da, AmountOf(cov.da), RecordsOf(sf, cov));
  }

  lemma BranchesReadBack(sf: string, cov: FileCov)
    requires WellFormed(cov)
    ensures Tallied(RecordsOf(sf, cov), sf, Branch) == cov.brda
  {
    hide RecordsOf, Keys, SumAt;
    KeysOfRecords(sf, cov);
    forall k { SumOfRecords(sf, cov, Branch, k); }
    TallyReadBack(sf, Branch, cov.brda, TakenOf(cov.brda, cov.brdaNumeric), RecordsOf(sf, cov));
  }

  lemma CallsReadBack(sf: string, cov: FileCov)
    ensures Tallied(RecordsOf(sf, cov), sf, Call) == Tallied(CallFacts(sf, cov), sf, Call)
  {
    hide RecordsOf, Keys, SumAt, Tallied;
    KeysOfRecords(sf, cov);
    KeysOfPart(sf, Call, Reread(cov), AmountOf(cov.fnda));
    forall k { SumOfRecords(sf, cov, Call, k); }
    SameSumsSameTally(RecordsOf(sf, cov), CallFacts(sf, cov), sf, Call);
  }

  /** All that can change when a printed file is read back is how its calls are keyed. */
  lemma ReadBack(sf: string, cov: FileCov)
    requires WellFormed(cov)
    ensures CovOf(RecordsOf(sf, cov), sf)
         == cov.(fnda := Tallied(CallFacts(sf, cov), sf, Call))
  {
    HitsReadBack(sf, cov);
    BranchesReadBack(sf, cov);
    CallsReadBack(sf, cov);
    NumericReadBack(sf, cov);
    KeysOfRecords(sf, cov);
    FirstSeenDistinct(cov.fnOrder);
    hide RecordsOf, Keys, Tallied, FirstSeen, Reread, Numeric;
  }

  lemma SameSumsSameTally(a: seq<Fact>, b: seq<Fact>, sf: string, kind: Kind)
    requires Keys(a, sf, kind) == Keys(b, sf, kind)
    requires forall k :: SumAt(a, sf, kind, k) == SumAt(b, sf, kind, k)
    ensures Tallied(a, sf, kind) == Tallied(b, sf, kind)
  {
    assert Tallied(a, sf, kind).counts == Tallied(b, sf, kind).counts;
  }

  // ---------------------------------------------------------------------------
  // Printing what was read back
  // ---------------------------------------------------------------------------

  function RereadCov(sf: string, cov: FileCov): FileCov {
    cov.(fnda := Tallied(CallFacts(sf, cov), sf, Call))
  }

  /**
   Paired by position, every FNDA record of the printed file keeps its name, and no two records
   share a key.
   */
  ghost predicate NamesSettled(cov: FileCov) {
    && Distinct(Reread(cov))
    && forall i :: 0 <= i < |cov.fnda.order| ==> AfterComma(Reread(cov)[i]) == AfterComma(cov.fnda.order[i])
  }

  lemma RereadTally(sf: string, cov: FileCov)
    ensures var t := RereadCov(sf, cov).fnda;
      && t.order == FirstSeen(Reread(cov))
      && (forall k :: k in t.order ==> k in t.counts)
      && (Distinct(Reread(cov)) ==> t.order == Reread(cov))
      && (Distinct(Reread(cov)) ==>
            forall i :: 0 <= i < |Reread(cov)| ==>
              t.counts[Reread(cov)[i]] == At(cov.fnda.counts, cov.fnda.order[i]))
  {
    KeysOfPart(sf, Call, Reread(cov), AmountOf(cov.fnda));
    FirstSeenDistinct(Reread(cov));
    FirstSeenMembers(Reread(cov));
    hide Reread, FirstSeen, Keys, SumAt;
    if Distinct(Reread(cov)) {
      forall i | 0 <= i < |Reread(cov)|
        ensures SumAt(CallFacts(sf, cov), sf, Call, Reread(cov)[i]) == At(cov.fnda.counts, cov.fnda.order[i])
      {
        SumOfPart(sf, Call, Reread(cov), AmountOf(cov.fnda), i);
      }
    }
  }

  lemma SettledPrintsTheSame(sf: string, cov: FileCov)
    requires NamesSettled(cov)
    ensures Block(sf, RereadCov(sf, cov)) == Block(sf, cov)
  {
    var t := RereadCov(sf, cov).fnda;
    RereadTally(sf, cov);
    hide RereadCov, Reread;
    assert CallRecords(t) == CallRecords(cov.fnda) by {
      forall i | 0 <= i < |t.order|
        ensures CallRecords(t)[i] == CallRecords(cov.fnda)[i]
      {
        assert t.order[i] == Reread(cov)[i];
      }
    }
    BlockDependsOnCalls(sf, cov, t);
    RereadIs(sf, cov);
  }

  lemma RereadIs(sf: string, cov: FileCov)
    ensures RereadCov(sf, cov) == cov.(fnda := RereadCov(sf, cov).fnda)
  {
  }

  lemma BlockDependsOnCalls(sf: string, cov: FileCov, t: Tally)
    requires CallRecords(t) == CallRecords(cov.fnda)
    ensures Block(sf, cov.(fnda := t)) == Block(sf, cov)
  {
    hide CallRecords, Printed, PrintLine, Stat, Hits;
    var other := cov.(fnda := t);
    assert FunctionLines(other) == FunctionLines(cov);
    assert BranchLines(other) == BranchLines(cov) && HitLines(other) == HitLines(cov);
  }

  /** How long a printed block is. */
  lemma BlockLength(sf: string, cov: FileCov)
    ensures |Block(sf, cov)|
         == |cov.fnOrder| + |cov.fnda.order| + |cov.brda.order| + |cov.da.order|
          + (if |cov.brda.order| > 0 then 8 else 6)
  {
    hide Printed, PrintLine, Stat, Hits;
  }

  lemma CallLineOfBlock(sf: string, cov: FileCov, i: nat)
    requires i < |cov.fnda.order|
    ensures 1 + |cov.fnOrder| + i < |Block(sf, cov)|
    ensures Block(sf, cov)[1 + |cov.fnOrder| + i]
         == PrintLine(FNDA(AfterComma(cov.fnda.order[i]), At(cov.fnda.counts, cov.fnda.order[i])))
  {
    hide PrintLine, Stat, Hits;
    BlockLength(sf, cov);
    var fns, calls := Printed(FnRecords(cov)), Printed(CallRecords(cov.fnda));
    assert FunctionLines(cov)[|fns| + i] == calls[i];
    assert Block(sf, cov)[1 + |fns| + i] == FunctionLines(cov)[|fns| + i];
  }

  lemma AfterCommaReadable(k: string)
    requires '\n' !in k
    ensures '\n' !in AfterComma(k)
  {
  }

  lemma SameCallLineSameName(name1: string, calls1: int, name2: string, calls2: int)
    requires '\n' !in name1 && '\n' !in name2
    requires PrintLine(FNDA(name1, calls1)) == PrintLine(FNDA(name2, calls2))
    ensures name1 == name2
  {
    hide PrintLine;
    ParsePrinted(FNDA(name1, calls1));
    ParsePrinted(FNDA(name2, calls2));
  }

  lemma RereadReadable(cov: FileCov, i: nat)
    requires ReadableCov(cov) && i < |Reread(cov)|
    ensures '\n' !in Reread(cov)[i] && '\n' !in AfterComma(Reread(cov)[i])
    ensures '\n' !in AfterComma(cov.fnda.order[i])
  {
    assert cov.fnda.order[i] in cov.fnda.order;
    AfterCommaReadable(cov.fnda.order[i]);
    if i < |cov.fnOrder| {
      assert cov.fnOrder[i] in cov.fnOrder;
    }
    AfterCommaReadable(Reread(cov)[i]);
  }

  /** A block that reads back to the same text has its names settled. */
  lemma SamePrintIsSettled(sf: string, cov: FileCov)
    requires ReadableCov(cov)
    ensures |Block(sf, RereadCov(sf, cov))| <= |Block(sf, cov)|
    ensures Block(sf, RereadCov(sf, cov)) == Block(sf, cov) ==> NamesSettled(cov)
  {
    var back := RereadCov(sf, cov);
    RereadTally(sf, cov);
    FirstSeenDistinct(Reread(cov));
    BlockLength(sf, cov);
    BlockLength(sf, back);
    if Block(sf, back) == Block(sf, cov) {
      SamePrintSameNames(sf, cov);
    }
  }

  lemma SamePrintSameNames(sf: string, cov: FileCov)
    requires ReadableCov(cov) && Distinct(Reread(cov))
    requires Block(sf, RereadCov(sf, cov)) == Block(sf, cov)
    ensures NamesSettled(cov)
  {
    forall i | 0 <= i < |cov.fnda.order|
      ensures AfterComma(Reread(cov)[i]) == AfterComma(cov.fnda.order[i])
    {
      SameNameAt(sf, cov, i);
    }
  }

  lemma SameNameAt(sf: string, cov: FileCov, i: nat)
    requires ReadableCov(cov) && Distinct(Reread(cov)) && i < |cov.fnda.order|
    requires Block(sf, RereadCov(sf, cov)) == Block(sf, cov)
    ensures AfterComma(Reread(cov)[i]) == AfterComma(cov.fnda.order[i])
  {
    RereadIs(sf, cov);
    hide PrintLine, Block, Reread, AfterComma, RereadCov, ReadableCov;
    var back := RereadCov(sf, cov);
    RereadTally(sf, cov);
    CallLineOfBlock(sf, cov, i);
    CallLineOfBlock(sf, back, i);
    RereadReadable(cov, i);
    SameCallLineSameName(AfterComma(Reread(cov)[i]), At(back.fnda.counts, back.fnda.order[i]),
                         AfterComma(cov.fnda.order[i]), At(cov.fnda.counts, cov.fnda.order[i]));
  }

  // ---------------------------------------------------------------------------
  // The whole report
  // ---------------------------------------------------------------------------

  ghost predicate WellFormedReport(r: Report) {
    && Distinct(r.order)
    && (forall sf :: sf in r.order <==> sf in r.files)
    && (forall sf :: sf in r.files ==> WellFormed(r.files[sf]))
    && ReadableFiles(r.files)
  }

  function RereadReport(r: Report): Report {
    Report(r.order, map sf | sf in r.files :: RereadCov(sf, r.files[sf]))
  }

  lemma RereadFile(r: Report, sf: string)
    requires WellFormedReport(r) && sf in r.order
    ensures CovOf(BlocksFacts(r.order, r.files), sf) == RereadCov(sf, r.files[sf])
  {
    hide CovOf, RecordsOf, Readable, ReadableFiles, WellFormed;
    CovOfFile(BlocksFacts(r.order, r.files), sf);
    BlocksOfFile(r.order, r.files, sf);
    ReadBack(sf, r.files[sf]);
  }

  lemma ReportReadsBack(r: Report)
    requires WellFormedReport(r)
    ensures ReportOf(BlocksFacts(r.order, r.files)) == RereadReport(r)
  {
    hide CovOf, RereadCov, WellFormed, ReadableFiles, BlocksFacts, Keys, FirstSeen;
    var facts := BlocksFacts(r.order, r.files);
    OrderOfBlocks(r.order, r.files);
    FirstSeenDistinct(r.order);
    var back, expected := ReportOf(facts).files, RereadReport(r).files;
    forall sf | sf in r.order
      ensures sf in back && sf in expected && back[sf] == expected[sf]
    {
      RereadFile(r, sf);
      FilesAt(facts, sf);
    }
    assert back == expected;
  }

  ghost predicate AllSettled(order: seq<string>, files: map<string, FileCov>) {
    forall sf :: sf in order && sf in files ==> NamesSettled(files[sf])
  }

  ghost predicate IsReread(files: map<string, FileCov>, back: map<string, FileCov>) {
    back.Keys == files.Keys && forall sf :: sf in files ==> back[sf] == RereadCov(sf, files[sf])
  }

  lemma {:induction false} SettledBlocks(order: seq<string>, files: map<string, FileCov>, back: map<string, FileCov>)
    requires IsReread(files, back) && AllSettled(order, files)
    ensures Blocks(order, back) == Blocks(order, files)
  {
    hide Block, RereadCov, NamesSettled;
    if order != [] {
      var last, init := order[|order| - 1], order[..|order| - 1];
      assert order == init + [last];
      SettledBlocks(init, files, back);
      if last in files {
        SettledPrintsTheSame(last, files[last]);
      }
    }
  }

  lemma {:induction false} SameBlocksAreSettled(order: seq<string>, files: map<string, FileCov>, back: map<string, FileCov>)
    requires IsReread(files, back) && ReadableFiles(files)
    ensures |Blocks(order, back)| <= |Blocks(order, files)|
    ensures Blocks(order, back) == Blocks(order, files) ==> AllSettled(order, files)
  {
    if order != [] {
      hide Blocks, RereadCov, NamesSettled, ReadableCov;
      var last, init := order[|order| - 1], order[..|order| - 1];
      assert order == init + [last];
      SameBlocksAreSettled(init, files, back);
      BlocksStep(order, files);
      BlocksStep(order, back);
      if last in files {
        SamePrintIsSettled(last, files[last]);
      }
      SameEnds(Blocks(init, back), LastBlock(order, back), Blocks(init, files), LastBlock(order, files));
    } else {
      NoBlocks(files);
      NoBlocks(back);
    }
  }

  function LastBlock(order: seq<string>, files: map<string, FileCov>): seq<string>
    requires order != []
  {
    var last := order[|order| - 1];
    if last in files then Block(last, files[last]) else []
  }

  lemma BlocksStep(order: seq<string>, files: map<string, FileCov>)
    requires order != []
    ensures Blocks(order, files) == Blocks(order[..|order| - 1], files) + LastBlock(order, files)
  {
    hide Block;
  }

  /** Two pieces that are no longer than two others and make the same whole are those others. */
  lemma SameEnds<T>(a: seq<T>, b: seq<T>, c: seq<T>, d: seq<T>)
    requires |a| <= |c| && |b| <= |d|
    ensures a + b == c + d ==> a == c && b == d
  {
    if a + b == c + d {
      assert |a + b| == |c + d|;
      assert a == (a + b)[..|a|] && c == (c + d)[..|c|];
      assert b == (a + b)[|a|..] && d == (c + d)[|c|..];
    }
  }

  lemma SameTextSameLines(a: seq<string>, b: seq<string>)
    requires Clean(a, '\n') && Clean(b, '\n') && (a == [] <==> b == [])
    requires JoinLines(a) == JoinLines(b)
    ensures a == b
  {
    SplitReport(a);
    SplitReport(b);
    hide Split, JoinLines;
    SameEnds(a, [""], b, [""]);
  }

  lemma SameTextIsSettled(r: Report)
    requires WellFormedReport(r) && ReportText(RereadReport(r)) == ReportText(r)
    ensures AllSettled(r.order, r.files)
  {
    hide RereadCov, NamesSettled, ReadableFiles, WellFormed, Blocks, BlocksFacts, AllSettled, JoinLines;
    var back := RereadReport(r);
    RereadReadableFiles(r);
    ReadBlocks(r.order, r.files);
    ReadBlocks(r.order, back.files);
    if r.order == [] {
      NoBlocks(r.files);
      NoBlocks(back.files);
    } else {
      BlocksNotEmpty(r.order, r.files);
      BlocksNotEmpty(r.order, back.files);
    }
    SameTextSameLines(Blocks(r.order, r.files), Blocks(r.order, back.files));
    SameBlocksAreSettled(r.order, r.files, back.files);
  }

  lemma NoBlocks(files: map<string, FileCov>)
    ensures Blocks([], files) == []
  {
  }

  lemma BlocksNotEmpty(order: seq<string>, files: map<string, FileCov>)
    requires order != [] && forall sf :: sf in order ==> sf in files
    ensures Blocks(order, files) != []
  {
    var last := order[|order| - 1];
    BlockLength(last, files[last]);
  }

  lemma RereadReadableFiles(r: Report)
    requires WellFormedReport(r)
    ensures ReadableFiles(RereadReport(r).files)
  {
    forall sf | sf in r.files
      ensures ReadableCov(RereadCov(sf, r.files[sf]))
    {
      var cov := r.files[sf];
      RereadTally(sf, cov);
      FirstSeenMembers(Reread(cov));
      forall i | 0 <= i < |Reread(cov)|
        ensures '\n' !in Reread(cov)[i]
      {
        RereadReadable(cov, i);
      }
    }
  }
}
