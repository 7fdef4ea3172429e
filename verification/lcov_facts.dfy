/**
 What a set of lcov reports says, as a list of facts in reading order, and the merged report
 as a function of that list: which keys occur, in first-seen order, and what their counts add
 up to.
 */
module LcovFacts {
  import opened Options
  import opened Text
  import opened LcovLines

  datatype Kind = Opened | Hit | Fn | Call | Branch

  /**
   One record of a source file. `amount` is the count read; a branch that was never evaluated
   has none. An `Opened` fact belongs to no file and has the file's name as its key.
   */
  datatype Fact = Fact(file: string, kind: Kind, key: string, amount: Option<int>)

  /** Where a shard's walk stands: the open file, the FN entries of the block, the FNDA seen in it. */
  datatype Cursor = Cursor(cur: Option<string>, fnAt: seq<string>, fndaIdx: nat)

  const START := Cursor(None, [], 0)

  function Advance(c: Cursor, line: Line): Cursor {
    match line
    case SF(sf) => Cursor(Some(sf), [], 0)
    case FN(entry) => if c.cur.None? then c else c.(fnAt := c.fnAt + [entry])
    case FNDA(_, _) => if c.cur.None? then c else c.(fndaIdx := c.fndaIdx + 1)
    case _ => c
  }

  /** The function an FNDA record counts: the FN at the same position of the block, or its own name. */
  function CalledFunction(c: Cursor, name: string): string {
    if c.fndaIdx < |c.fnAt| then c.fnAt[c.fndaIdx] else name
  }

  function Emit(c: Cursor, line: Line): seq<Fact> {
    if line.SF? then [Fact("", Opened, line.sf, None)]
    else if c.cur.None? then []
    else match line
      case DA(at, count) => [Fact(c.cur.value, Hit, at, Some(count))]
      case FN(entry) => [Fact(c.cur.value, Fn, entry, None)]
      case FNDA(name, calls) => [Fact(c.cur.value, Call, CalledFunction(c, name), Some(calls))]
      case BRDA(key, taken) => [Fact(c.cur.value, Branch, key, taken)]
      case _ => []
  }

  function CursorAfter(c: Cursor, lines: seq<Line>): Cursor {
    if lines == [] then c
    else Advance(CursorAfter(c, lines[..|lines| - 1]), lines[|lines| - 1])
  }

  function FactsOf(c: Cursor, lines: seq<Line>): seq<Fact> {
    if lines == [] then []
    else FactsOf(c, lines[..|lines| - 1]) + Emit(CursorAfter(c, lines[..|lines| - 1]), lines[|lines| - 1])
  }

  lemma FactsStep(c: Cursor, lines: seq<Line>, i: nat)
    requires i < |lines|
    ensures CursorAfter(c, lines[..i + 1]) == Advance(CursorAfter(c, lines[..i]), lines[i])
    ensures FactsOf(c, lines[..i + 1]) == FactsOf(c, lines[..i]) + Emit(CursorAfter(c, lines[..i]), lines[i])
  {
    assert lines[..i + 1][..i] == lines[..i];
  }

  function Parsed(raws: seq<string>): (lines: seq<Line>)
    ensures |lines| == |raws|
    ensures forall i :: 0 <= i < |raws| ==> lines[i] == ParseLine(raws[i])
  {
    seq(|raws|, i requires 0 <= i < |raws| => ParseLine(raws[i]))
  }

  /** The text of one shard's report, read from the start. */
  function ShardFacts(text: string): seq<Fact> {
    FactsOf(START, Parsed(Split(text, '\n')))
  }

  /** The reports of all shards, one after the other; a shard may have none. */
  function AllFacts(shards: seq<Option<string>>): seq<Fact> {
    if shards == [] then []
    else
      var last := shards[|shards| - 1];
      AllFacts(shards[..|shards| - 1]) + (if last.None? then [] else ShardFacts(last.value))
  }

  // ---------------------------------------------------------------------------
  // The merged report
  // ---------------------------------------------------------------------------

  /** Counts per key, and the keys in first-seen order. */
  datatype Tally = Tally(order: seq<string>, counts: map<string, int>)

  datatype FileCov = FileCov(
    da: Tally,
    fnOrder: seq<string>, fnSeen: set<string>,
    fnda: Tally,
    brda: Tally, brdaNumeric: set<string>)

  datatype Report = Report(order: seq<string>, files: map<string, FileCov>)

  predicate Is(f: Fact, sf: string, kind: Kind) {
    f.file == sf && f.kind == kind
  }

  function Amount(f: Fact): int {
    if f.amount.None? then 0 else f.amount.value
  }

  /** The keys of one kind of record of one file, in reading order. */
  function Keys(facts: seq<Fact>, sf: string, kind: Kind): seq<string> {
    if facts == [] then []
    else
      var f := facts[|facts| - 1];
      var init := Keys(facts[..|facts| - 1], sf, kind);
      if Is(f, sf, kind) then init + [f.key] else init
  }

  /** What the counts of one key add up to. */
  function SumAt(facts: seq<Fact>, sf: string, kind: Kind, k: string): int {
    if facts == [] then 0
    else
      var f := facts[|facts| - 1];
      SumAt(facts[..|facts| - 1], sf, kind, k) + (if Is(f, sf, kind) && f.key == k then Amount(f) else 0)
  }

  ghost predicate Distinct<T>(xs: seq<T>) {
    forall i, j :: 0 <= i < j < |xs| ==> xs[i] != xs[j]
  }

  /** Every key once, where it occurs first. */
  function FirstSeen(keys: seq<string>): seq<string> {
    if keys == [] then []
    else
      var k := keys[|keys| - 1];
      var once := FirstSeen(keys[..|keys| - 1]);
      if k in once then once else once + [k]
  }

  function Tallied(facts: seq<Fact>, sf: string, kind: Kind): Tally {
    var order := FirstSeen(Keys(facts, sf, kind));
    Tally(order, map k | k in order :: SumAt(facts, sf, kind, k))
  }

  /** The branches some shard gave a number for. */
  function Numeric(facts: seq<Fact>, sf: string): set<string> {
    set f | f in facts && Is(f, sf, Branch) && f.amount.Some? :: f.key
  }

  function CovOf(facts: seq<Fact>, sf: string): FileCov {
    var fnOrder := FirstSeen(Keys(facts, sf, Fn));
    FileCov(
      Tallied(facts, sf, Hit),
      fnOrder, (set k | k in fnOrder),
      Tallied(facts, sf, Call),
      Tallied(facts, sf, Branch), Numeric(facts, sf))
  }

  function FileOrder(facts: seq<Fact>): seq<string> {
    FirstSeen(Keys(facts, "", Opened))
  }

  function ReportOf(facts: seq<Fact>): Report {
    Report(FileOrder(facts), map sf | sf in FileOrder(facts) :: CovOf(facts, sf))
  }

  const EMPTY_TALLY := Tally([], map[])
  const EMPTY_COV := FileCov(EMPTY_TALLY, [], {}, EMPTY_TALLY, EMPTY_TALLY, {})

  // ---------------------------------------------------------------------------
  // One more fact
  // ---------------------------------------------------------------------------

  function Bump(t: Tally, k: string, n: int): Tally {
    if k in t.counts then t.(counts := t.counts[k := t.counts[k] + n])
    else Tally(t.order + [k], t.counts[k := n])
  }

  lemma Snoc<T>(xs: seq<T>, x: T)
    ensures (xs + [x])[..|xs + [x]| - 1] == xs && (xs + [x])[|xs + [x]| - 1] == x
  {
  }

  /** The keys of a file are those of its records. */
  lemma {:induction false} KeysMembers(facts: seq<Fact>, sf: string, kind: Kind)
    ensures forall k :: k in Keys(facts, sf, kind) <==> exists f :: f in facts && Is(f, sf, kind) && f.key == k
  {
    if facts != [] {
      var f, init := facts[|facts| - 1], facts[..|facts| - 1];
      KeysMembers(init, sf, kind);
      assert facts == init + [f];
    }
  }

  /** Nothing is dropped and nothing occurs twice. */
  lemma {:induction false} FirstSeenMembers(keys: seq<string>)
    ensures forall k :: k in FirstSeen(keys) <==> k in keys
    ensures Distinct(FirstSeen(keys))
  {
    if keys != [] {
      var k, init := keys[|keys| - 1], keys[..|keys| - 1];
      FirstSeenMembers(init);
      assert keys == init + [k];
    }
  }

  lemma {:induction false} SumAtUnseen(facts: seq<Fact>, sf: string, kind: Kind, k: string)
    requires k !in Keys(facts, sf, kind)
    ensures SumAt(facts, sf, kind, k) == 0
  {
    if facts != [] {
      SumAtUnseen(facts[..|facts| - 1], sf, kind, k);
    }
  }

  lemma KeysStep(facts: seq<Fact>, f: Fact, sf: string, kind: Kind)
    ensures Keys(facts + [f], sf, kind)
         == if Is(f, sf, kind) then Keys(facts, sf, kind) + [f.key] else Keys(facts, sf, kind)
  {
    Snoc(facts, f);
  }

  lemma SumAtStep(facts: seq<Fact>, f: Fact, sf: string, kind: Kind, k: string)
    ensures SumAt(facts + [f], sf, kind, k)
         == SumAt(facts, sf, kind, k) + (if Is(f, sf, kind) && f.key == k then Amount(f) else 0)
  {
    Snoc(facts, f);
  }

  lemma FirstSeenStep(keys: seq<string>, k: string)
    ensures FirstSeen(keys + [k]) == if k in FirstSeen(keys) then FirstSeen(keys) else FirstSeen(keys) + [k]
  {
    Snoc(keys, k);
  }

  lemma CountsAt(facts: seq<Fact>, sf: string, kind: Kind)
    ensures var t := Tallied(facts, sf, kind);
      && (forall k :: k in t.counts <==> k in t.order)
      && (forall k :: k in t.counts ==> t.counts[k] == SumAt(facts, sf, kind, k))
      && (forall k :: k in t.order <==> k in Keys(facts, sf, kind))
  {
    FirstSeenMembers(Keys(facts, sf, kind));
  }

  lemma TalliedSame(facts: seq<Fact>, f: Fact, sf: string, kind: Kind)
    requires !Is(f, sf, kind)
    ensures Tallied(facts + [f], sf, kind) == Tallied(facts, sf, kind)
  {
    KeysStep(facts, f, sf, kind);
    forall k ensures SumAt(facts + [f], sf, kind, k) == SumAt(facts, sf, kind, k) {
      SumAtStep(facts, f, sf, kind, k);
    }
    assert Tallied(facts + [f], sf, kind).counts == Tallied(facts, sf, kind).counts;
  }

  lemma BumpedAt(facts: seq<Fact>, f: Fact, sf: string, kind: Kind, k: string)
    requires Is(f, sf, kind) && (k == f.key || k in Tallied(facts, sf, kind).counts)
    ensures var bumped := Bump(Tallied(facts, sf, kind), f.key, Amount(f));
      k in bumped.counts && bumped.counts[k] == SumAt(facts + [f], sf, kind, k)
  {
    CountsAt(facts, sf, kind);
    SumAtStep(facts, f, sf, kind, k);
    if k !in Tallied(facts, sf, kind).counts {
      SumAtUnseen(facts, sf, kind, k);
    }
  }

  lemma BumpedOrder(facts: seq<Fact>, f: Fact, sf: string, kind: Kind)
    requires Is(f, sf, kind)
    ensures Tallied(facts + [f], sf, kind).order == Bump(Tallied(facts, sf, kind), f.key, Amount(f)).order
    ensures forall k :: k in Tallied(facts + [f], sf, kind).order
                    <==> k == f.key || k in Tallied(facts, sf, kind).order
  {
    KeysStep(facts, f, sf, kind);
    FirstSeenStep(Keys(facts, sf, kind), f.key);
    CountsAt(facts, sf, kind);
  }

  lemma TalliedBumped(facts: seq<Fact>, f: Fact, sf: string, kind: Kind)
    requires Is(f, sf, kind)
    ensures Tallied(facts + [f], sf, kind) == Bump(Tallied(facts, sf, kind), f.key, Amount(f))
  {
    var before, after := Tallied(facts, sf, kind), Tallied(facts + [f], sf, kind);
    var bumped := Bump(before, f.key, Amount(f));
    BumpedOrder(facts, f, sf, kind);
    CountsAt(facts, sf, kind);
    CountsAt(facts + [f], sf, kind);
    forall k | k in after.counts
      ensures k in bumped.counts && after.counts[k] == bumped.counts[k]
    {
      BumpedAt(facts, f, sf, kind, k);
    }
    assert after.counts == bumped.counts;
  }

  lemma TalliedStep(facts: seq<Fact>, f: Fact, sf: string, kind: Kind)
    ensures Tallied(facts + [f], sf, kind)
         == if Is(f, sf, kind) then Bump(Tallied(facts, sf, kind), f.key, Amount(f))
            else Tallied(facts, sf, kind)
  {
    if Is(f, sf, kind) {
      TalliedBumped(facts, f, sf, kind);
    } else {
      TalliedSame(facts, f, sf, kind);
    }
  }

  lemma NumericStep(facts: seq<Fact>, f: Fact, sf: string)
    ensures Numeric(facts + [f], sf)
         == Numeric(facts, sf) + (if Is(f, sf, Branch) && f.amount.Some? then {f.key} else {})
  {
    assert forall g :: g in facts + [f] <==> g in facts || g == f;
  }

  /** How one record changes its file's coverage. */
  function Apply(cov: FileCov, f: Fact): FileCov {
    match f.kind
    case Opened => cov
    case Hit => cov.(da := Bump(cov.da, f.key, Amount(f)))
    case Fn => if f.key in cov.fnSeen then cov
               else cov.(fnOrder := cov.fnOrder + [f.key], fnSeen := cov.fnSeen + {f.key})
    case Call => cov.(fnda := Bump(cov.fnda, f.key, Amount(f)))
    case Branch => cov.(brda := Bump(cov.brda, f.key, Amount(f)),
                        brdaNumeric := cov.brdaNumeric + (if f.amount.Some? then {f.key} else {}))
  }

  /** A fact changes the coverage of its own file only. */
  lemma CovStep(facts: seq<Fact>, f: Fact, sf: string)
    ensures CovOf(facts + [f], sf) == if f.file == sf then Apply(CovOf(facts, sf), f) else CovOf(facts, sf)
  {
    hide Tallied, Bump, Numeric, Keys, FirstSeen;
    TalliedStep(facts, f, sf, Hit);
    TalliedStep(facts, f, sf, Call);
    TalliedStep(facts, f, sf, Branch);
    FnStep(facts, f, sf);
    NumericStep(facts, f, sf);
    var before, after := CovOf(facts, sf), CovOf(facts + [f], sf);
    if f.file != sf {
    } else if f.kind == Fn {
      assert after == before.(fnOrder := after.fnOrder, fnSeen := after.fnSeen);
    } else {
      assert after.fnOrder == before.fnOrder;
    }
  }

  lemma FnStep(facts: seq<Fact>, f: Fact, sf: string)
    ensures var before, after := FirstSeen(Keys(facts, sf, Fn)), FirstSeen(Keys(facts + [f], sf, Fn));
      && after == (if Is(f, sf, Fn) && f.key !in before then before + [f.key] else before)
      && (set k | k in after) == (set k | k in before) + (if Is(f, sf, Fn) then {f.key} else {})
  {
    KeysStep(facts, f, sf, Fn);
    FirstSeenStep(Keys(facts, sf, Fn), f.key);
  }

  /** Every record belongs to a file that was opened. */
  ghost predicate Grounded(facts: seq<Fact>) {
    forall f :: f in facts && f.kind != Opened ==> f.file in FileOrder(facts)
  }

  lemma {:induction false} CovOfUnopened(facts: seq<Fact>, sf: string)
    requires Grounded(facts) && sf !in FileOrder(facts)
    ensures CovOf(facts, sf) == EMPTY_COV
  {
    NoKeys(facts, sf, Hit);
    NoKeys(facts, sf, Fn);
    NoKeys(facts, sf, Call);
    NoKeys(facts, sf, Branch);
  }

  lemma NoKeys(facts: seq<Fact>, sf: string, kind: Kind)
    requires forall f :: f in facts ==> !Is(f, sf, kind)
    ensures Keys(facts, sf, kind) == []
  {
    KeysMembers(facts, sf, kind);
    var keys := Keys(facts, sf, kind);
    if k :| k in keys {
      assert false;
    }
  }

  // ---------------------------------------------------------------------------
  // One more fact, for the whole report
  // ---------------------------------------------------------------------------

  lemma OrderStep(facts: seq<Fact>, f: Fact)
    ensures FileOrder(facts + [f])
         == if Is(f, "", Opened) && f.key !in FileOrder(facts) then FileOrder(facts) + [f.key]
            else FileOrder(facts)
  {
    KeysStep(facts, f, "", Opened);
    FirstSeenStep(Keys(facts, "", Opened), f.key);
  }

  lemma GroundedStep(facts: seq<Fact>, f: Fact)
    requires Grounded(facts) && (f.kind == Opened || f.file in FileOrder(facts))
    ensures Grounded(facts + [f])
  {
    OrderStep(facts, f);
    forall g | g in facts + [f] && g.kind != Opened
      ensures g.file in FileOrder(facts + [f])
    {
      assert g in facts || g == f;
    }
  }

  lemma FilesAt(facts: seq<Fact>, sf: string)
    ensures sf in ReportOf(facts).files <==> sf in FileOrder(facts)
    ensures sf in FileOrder(facts) ==> ReportOf(facts).files[sf] == CovOf(facts, sf)
  {
  }

  lemma OpenedChangesNoFile(facts: seq<Fact>, f: Fact, sf: string)
    requires f.kind == Opened
    ensures CovOf(facts + [f], sf) == CovOf(facts, sf)
  {
    CovStep(facts, f, sf);
  }

  /** Opening a file adds it at the end with nothing counted, unless it is there already. */
  lemma ReportOpened(facts: seq<Fact>, sf: string)
    requires Grounded(facts)
    ensures var f := Fact("", Opened, sf, None);
      ReportOf(facts + [f])
         == if sf in FileOrder(facts) then ReportOf(facts)
            else Report(FileOrder(facts) + [sf], ReportOf(facts).files[sf := EMPTY_COV])
  {
    hide CovOf, Keys, FirstSeen, FileOrder;
    var f := Fact("", Opened, sf, None);
    var before, after := ReportOf(facts), ReportOf(facts + [f]);
    var expected := if sf in FileOrder(facts) then before.files else before.files[sf := EMPTY_COV];
    OrderStep(facts, f);
    forall s
      ensures s in after.files <==> s in expected
      ensures s in after.files ==> after.files[s] == expected[s]
    {
      FilesAt(facts, s);
      FilesAt(facts + [f], s);
      OpenedChangesNoFile(facts, f, s);
      if s !in FileOrder(facts) {
        CovOfUnopened(facts, s);
      }
    }
    assert after.files == expected;
  }

  lemma RecordAt(facts: seq<Fact>, f: Fact, s: string)
    requires f.kind != Opened && f.file in FileOrder(facts)
    ensures var before, after := ReportOf(facts).files, ReportOf(facts + [f]).files;
      && (s in after <==> s in before)
      && (s in before ==> after[s] == if s == f.file then Apply(before[s], f) else before[s])
  {
    OrderStep(facts, f);
    FilesAt(facts, s);
    FilesAt(facts + [f], s);
    CovStep(facts, f, s);
  }

  /** A record of an open file changes that file's coverage and nothing else. */
  lemma ReportRecord(facts: seq<Fact>, f: Fact)
    requires f.kind != Opened && f.file in FileOrder(facts)
    ensures var r := ReportOf(facts);
      ReportOf(facts + [f]) == r.(files := r.files[f.file := Apply(r.files[f.file], f)])
  {
    hide CovOf, Apply;
    var before, after := ReportOf(facts), ReportOf(facts + [f]);
    var expected := before.files[f.file := Apply(before.files[f.file], f)];
    OrderStep(facts, f);
    forall s
      ensures s in after.files <==> s in before.files
      ensures s in before.files ==>
                after.files[s] == if s == f.file then Apply(before.files[s], f) else before.files[s]
    {
      RecordAt(facts, f, s);
    }
    assert after.files == expected;
  }

  /** A branch no shard gave a number for counts nothing. */
  lemma {:induction false} NotNumericIsZero(facts: seq<Fact>, sf: string, k: string)
    requires k !in Numeric(facts, sf)
    ensures SumAt(facts, sf, Branch, k) == 0
  {
    if facts != [] {
      var f, init := facts[|facts| - 1], facts[..|facts| - 1];
      assert facts == init + [f];
      NumericStep(init, f, sf);
      NotNumericIsZero(init, sf, k);
    }
  }
}
