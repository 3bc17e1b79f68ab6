/** Where phis go: the iterated dominance frontier of the blocks that store to a slot. */
module PhiPlacement {
  import opened Ir
  import opened Graph
  import opened Functions
  import opened SsaForm
  import opened Verify
  import opened Slots

  /** What the pass keeps about the slots it promotes, by index. */
  class Builder {
    var slots: seq<nat>                      // the addresses
    var promotionOf: map<nat, nat>           // which promotion an address belongs to
    var ty: seq<Ty>                          // the type of each slot's content
    var phis: seq<seq<Option<Instr>>>        // the phi placed for a slot in each block
    var stack: seq<seq<nat>>                 // the definitions in scope, innermost last
    var undefined: seq<Option<nat>>          // what a load sees before anything is stored
    var zeros: Block                         // emitted in front of the entry
    var replacement: map<nat, nat>           // what each removed load became

    constructor ()
      ensures slots == [] && phis == [] && stack == [] && undefined == [] && zeros == [] && replacement == map[]
    {
      slots, promotionOf, ty, phis, stack, undefined, zeros, replacement := [], map[], [], [], [], [], [], map[];
    }
  }

  ghost predicate StoresTo(code: Code, x: nat, s: nat) {
    x < |code| && exists k :: 0 <= k < |code[x]| && Stores(code[x][k], s)
  }

  /** A set of blocks that has a phi wherever the storing blocks, or the phis themselves,
      can meet another definition. */
  ghost predicate ClosedUnderFrontier(code: Code, rank: seq<int>, frontier: seq<seq<nat>>, s: nat, blocks: set<nat>) {
    forall x: nat, y: nat {:trigger y in frontier[x]}
      | x < |code| && x < |frontier| && x < |rank| && rank[x] >= 0 && (StoresTo(code, x, s) || x in blocks) &&
        y in frontier[x] :: y in blocks
  }

  /** The least such set: the iterated dominance frontier. */
  ghost predicate InIteratedFrontier(code: Code, rank: seq<int>, frontier: seq<seq<nat>>, s: nat, b: nat) {
    forall blocks: set<nat> {:trigger ClosedUnderFrontier(code, rank, frontier, s, blocks)}
      | ClosedUnderFrontier(code, rank, frontier, s, blocks) :: b in blocks
  }

  // --------------------------------------------------------------------- the loop

  /** The marks of the search. */
  datatype Marks = Marks(onWorklist: seq<bool>, hasPhi: seq<bool>)

  ghost predicate Searching(code: Code, rank: seq<int>, frontier: seq<seq<nat>>, s: nat, k: Marks, work: seq<nat>) {
    && |k.onWorklist| == |k.hasPhi| == |code| == |frontier| == |rank|
    && (forall i, j | 0 <= i < j < |work| :: work[i] != work[j])
    && (forall b: nat {:trigger b in work} | b in work :: b < |code| && rank[b] >= 0 && k.onWorklist[b])
    && (forall b: nat | b < |code| :: k.onWorklist[b] <==> (rank[b] >= 0 && StoresTo(code, b, s)) || k.hasPhi[b])
    && (forall b: nat | b < |code| && k.hasPhi[b] :: rank[b] >= 0 && InIteratedFrontier(code, rank, frontier, s, b))
  }

  /** Every block taken off the list has a phi wherever its frontier says. */
  ghost predicate Handled(frontier: seq<seq<nat>>, k: Marks, work: seq<nat>, except: int) {
    && |k.onWorklist| == |k.hasPhi| == |frontier|
    && forall x: nat, y: nat {:trigger y in frontier[x]}
         | x < |frontier| && x != except && k.onWorklist[x] && x !in work && y in frontier[x] && y < |k.hasPhi| ::
           k.hasPhi[y]
  }

  lemma DistinctFit(s: seq<nat>, n: nat)
    requires forall i, j | 0 <= i < j < |s| :: s[i] != s[j]
    requires forall i | 0 <= i < |s| :: s[i] < n
    ensures |s| <= n
  {
    var all: seq<nat> := seq(n, i requires 0 <= i < n => i);
    DistinctCardinality(s);
    DistinctCardinality(all);
    forall x | x in s
      ensures x in all
    {
      assert all[x] == x;
    }
    SubsetSmaller(Elements(s), Elements(all));
  }

  lemma SubsetSmaller(a: set<nat>, b: set<nat>)
    requires a <= b
    ensures |a| <= |b|
  {
    assert b == a + (b - a);
  }

  /** There is room for a block that has never been on the list. */
  lemma RoomForOne(code: Code, rank: seq<int>, frontier: seq<seq<nat>>, s: nat, k: Marks, work: seq<nat>, b: nat)
    requires Searching(code, rank, frontier, s, k, work) && b < |code| && !k.onWorklist[b]
    ensures |work| < |code|
  {
    var more := work + [b];
    forall i | 0 <= i < |work|
      ensures work[i] != b && work[i] < |code|
    {
      assert work[i] in work;
    }
    DistinctFit(more, |code|);
  }

  /** A block on the frontier of a definition belongs to the iterated frontier. */
  lemma FrontierOfMember(code: Code, rank: seq<int>, frontier: seq<seq<nat>>, s: nat, x: nat, y: nat)
    requires x < |code| && x < |frontier| && x < |rank| && rank[x] >= 0 && y in frontier[x]
    requires StoresTo(code, x, s) || InIteratedFrontier(code, rank, frontier, s, x)
    ensures InIteratedFrontier(code, rank, frontier, s, y)
  {
  }

  /** The effect of giving `y` its phi, on the marks. */
  function Marked(k: Marks, y: nat): Marks
    requires y < |k.onWorklist| == |k.hasPhi|
  {
    Marks(k.onWorklist[y := true], k.hasPhi[y := true])
  }

  function Pushed(k: Marks, work: seq<nat>, y: nat): seq<nat>
    requires y < |k.onWorklist|
  {
    if k.onWorklist[y] then work else work + [y]
  }

  lemma MarkKeeps(code: Code, rank: seq<int>, frontier: seq<seq<nat>>, s: nat, k: Marks, work: seq<nat>, x: nat, y: nat)
    requires Searching(code, rank, frontier, s, k, work) && Handled(frontier, k, work, x)
    requires x < |code| && rank[x] >= 0 && k.onWorklist[x] && y in frontier[x] && y < |code| && rank[y] >= 0
    ensures Searching(code, rank, frontier, s, Marked(k, y), Pushed(k, work, y))
    ensures Handled(frontier, Marked(k, y), Pushed(k, work, y), x)
  {
    FrontierOfMember(code, rank, frontier, s, x, y);
    var more := Pushed(k, work, y);
    forall i, j | 0 <= i < j < |more|
      ensures more[i] != more[j]
    {
      if j == |work| {
        assert more[i] in work;
      }
    }
  }

  // ------------------------------------------------------------------- the method

  /** A row of fresh phis: their values are new, and different in different blocks. */
  ghost predicate FreshRow(row: seq<Option<Instr>>, low: nat, high: nat) {
    && (forall b: nat | b < |row| && row[b].Some? ::
          row[b].value.dst.Some? && row[b].value == Emit(Phi).(dst := row[b].value.dst) &&
            low <= row[b].value.dst.value < high)
    && (forall a: nat, b: nat | a < b < |row| && row[a].Some? && row[b].Some? :: row[a].value.dst != row[b].value.dst)
  }

  ghost predicate RowIs(row: seq<Option<Instr>>, hasPhi: seq<bool>) {
    |row| == |hasPhi| && forall b: nat | b < |row| :: row[b].Some? <==> hasPhi[b]
  }

  lemma EmitKeepsRow(row: seq<Option<Instr>>, low: nat, high: nat, y: nat)
    requires FreshRow(row, low, high) && low <= high && y < |row| && row[y].None?
    ensures FreshRow(row[y := Some(Emit(Phi).(dst := Some(high)))], low, high + 1)
  {
  }

  /** The frontier lists are indexed by block and name reachable blocks. */
  ghost predicate FrontierOk(code: Code, rank: seq<int>, frontier: seq<seq<nat>>) {
    && |frontier| == |rank| == |code|
    && forall x: nat, y: nat {:trigger y in frontier[x]} | x < |frontier| && rank[x] >= 0 && y in frontier[x] ::
         y < |code| && rank[y] >= 0
  }

  method FindStores(f: Function, s: nat, x: nat) returns (found: bool)
    requires x < |f.code|
    ensures found <==> StoresTo(f.code, x, s)
  {
    for i := 0 to |f.code[x]|
      invariant forall k | 0 <= k < i :: !Stores(f.code[x][k], s)
    {
      if Stores(f.code[x][i], s) {
        return true;
      }
    }
    found := false;
  }

  /** The blocks that store to the slot. */
  method StoringBlocks(f: Function, s: nat, worklist: array<nat>) returns (onWorklist: seq<bool>, count: nat)
    requires FrontierOk(f.code, f.rpoIndex, f.frontier) && worklist.Length == |f.code|
    modifies worklist
    ensures count <= worklist.Length
    ensures var k := Marks(onWorklist, seq(|f.code|, _ => false));
            && Searching(f.code, f.rpoIndex, f.frontier, s, k, worklist[..count])
            && Handled(f.frontier, k, worklist[..count], -1)
  {
    onWorklist := seq(|f.code|, _ => false);
    count := 0;
    for b: nat := 0 to |f.code|
      invariant count <= b && |onWorklist| == |f.code|
      invariant forall i, j | 0 <= i < j < count :: worklist[i] < worklist[j]
      invariant forall i | 0 <= i < count :: worklist[i] < b
      invariant forall x: nat {:trigger x in worklist[..count]} | x < |f.code| ::
                  x in worklist[..count] <==> onWorklist[x]
      invariant forall x: nat | x < |f.code| ::
                  onWorklist[x] <==> x < b && f.rpoIndex[x] >= 0 && StoresTo(f.code, x, s)
    {
      if f.rpoIndex[b] >= 0 {
        var stores := FindStores(f, s, b);
        if stores && !onWorklist[b] {
          ghost var before := worklist[..count];
          onWorklist := onWorklist[b := true];
          worklist[count] := b;
          count := count + 1;
          assert worklist[..count] == before + [b];
        }
      }
    }
  }

  /** The builder with more of the phis of promotion `p`. */
  ghost predicate Placing(row: seq<Option<Instr>>, hasPhi: seq<bool>, types0: seq<Ty>, types: seq<Ty>, ty: Ty) {
    && RowIs(row, hasPhi) && FreshRow(row, |types0|, |types|)
    && |types| >= |types0| && types[..|types0|] == types0
    && (forall v | |types0| <= v < |types| :: types[v] == ty)
  }

  /** The whole state of the search, marks and phis. */
  ghost predicate Round(code: Code, rank: seq<int>, frontier: seq<seq<nat>>, s: nat, k: Marks, work: seq<nat>,
      except: int, row: seq<Option<Instr>>, types0: seq<Ty>, types: seq<Ty>, ty: Ty) {
    match k
    case Marks(_, hasPhi) =>
      && Searching(code, rank, frontier, s, k, work) && Handled(frontier, k, work, except)
      && Placing(row, hasPhi, types0, types, ty)
  }

  ghost predicate OnlyRow(before: seq<seq<Option<Instr>>>, after: seq<seq<Option<Instr>>>, p: nat) {
    |before| == |after| && p < |after| && after == before[p := after[p]]
  }

  /** Give a merge its phi; as that is a definition too, the merge joins the list. */
  method GivePhi(f: Function, bld: Builder, ghost types0: seq<Ty>, p: nat, ghost defining: nat, merge: nat,
      worklist: array<nat>, onWorklist: seq<bool>, ghost hasPhi: seq<bool>, count: nat)
    returns (onWorklist': seq<bool>, count': nat)
    requires p < |bld.slots| == |bld.ty| == |bld.phis|
    requires count <= worklist.Length == |f.code|
    requires Round(f.code, f.rpoIndex, f.frontier, bld.slots[p], Marks(onWorklist, hasPhi), worklist[..count], defining,
                   bld.phis[p], types0, f.types, bld.ty[p])
    requires defining < |f.code| && f.rpoIndex[defining] >= 0 && onWorklist[defining]
    requires FrontierOk(f.code, f.rpoIndex, f.frontier)
    requires merge in f.frontier[defining] && merge < |hasPhi| && !hasPhi[merge]
    modifies f`types, bld`phis, worklist
    ensures OnlyRow(old(bld.phis), bld.phis, p)
    ensures count' <= worklist.Length
    ensures merge < |onWorklist| && onWorklist' == onWorklist[merge := true]
    ensures Round(f.code, f.rpoIndex, f.frontier, bld.slots[p], Marks(onWorklist', hasPhi[merge := true]),
        worklist[..count'],
                  defining, bld.phis[p], types0, f.types, bld.ty[p])
    ensures Unmarked(onWorklist') < Unmarked(onWorklist) || (onWorklist' == onWorklist && count' == count)
  {
    ghost var k, work := Marks(onWorklist, hasPhi), worklist[..count];
    MarkKeeps(f.code, f.rpoIndex, f.frontier, bld.slots[p], k, work, defining, merge);
    onWorklist', count' := onWorklist, count;
    EmitKeepsRow(bld.phis[p], |types0|, |f.types|, merge);
    bld.phis := bld.phis[p := bld.phis[p][merge := Some(Emit(Phi).(dst := Some(|f.types|)))]];
    f.types := f.types + [bld.ty[p]];
    if !onWorklist'[merge] {
      RoomForOne(f.code, f.rpoIndex, f.frontier, bld.slots[p], k, work, merge);
      MarkOne(onWorklist, merge);
      onWorklist' := onWorklist'[merge := true];
      worklist[count'] := merge;
      count' := count' + 1;
      assert worklist[..count'] == work + [merge];
    } else {
      assert onWorklist'[merge := true] == onWorklist';
    }
  }

  lemma AllMerges(code: Code, rank: seq<int>, frontier: seq<seq<nat>>, s: nat, k: Marks, work: seq<nat>, x: nat,
      row: seq<Option<Instr>>, types0: seq<Ty>, types: seq<Ty>, ty: Ty)
    requires Round(code, rank, frontier, s, k, work, x, row, types0, types, ty) && x < |code|
    requires forall j | 0 <= j < |frontier[x]| :: frontier[x][j] < |k.hasPhi| && k.hasPhi[frontier[x][j]]
    ensures Round(code, rank, frontier, s, k, work, -1, row, types0, types, ty)
  {
  }

  /** A merge gets its phi unless it has one. */
  method MergeOne(f: Function, bld: Builder, ghost types0: seq<Ty>, p: nat, ghost defining: nat, merge: nat,
      worklist: array<nat>, onWorklist: seq<bool>, hasPhi: seq<bool>, count: nat)
    returns (onWorklist': seq<bool>, hasPhi': seq<bool>, count': nat)
    requires p < |bld.slots| == |bld.ty| == |bld.phis|
    requires count <= worklist.Length == |f.code|
    requires Round(f.code, f.rpoIndex, f.frontier, bld.slots[p], Marks(onWorklist, hasPhi), worklist[..count],
                   defining, bld.phis[p], types0, f.types, bld.ty[p])
    requires defining < |f.code| && f.rpoIndex[defining] >= 0 && |onWorklist| == |f.code| && onWorklist[defining]
    requires FrontierOk(f.code, f.rpoIndex, f.frontier)
    requires merge in f.frontier[defining] && merge < |hasPhi|
    modifies f`types, bld`phis, worklist
    ensures OnlyRow(old(bld.phis), bld.phis, p) && count' <= worklist.Length
    ensures |onWorklist'| == |onWorklist| && onWorklist'[defining] && hasPhi' == hasPhi[merge := true]
    ensures Round(f.code, f.rpoIndex, f.frontier, bld.slots[p], Marks(onWorklist', hasPhi'), worklist[..count'],
                  defining, bld.phis[p], types0, f.types, bld.ty[p])
    ensures Unmarked(onWorklist') < Unmarked(onWorklist) || (onWorklist' == onWorklist && count' == count)
  {
    onWorklist', hasPhi', count' := onWorklist, hasPhi, count;
    if !hasPhi[merge] {
      onWorklist', count' := GivePhi(f, bld, types0, p, defining, merge, worklist, onWorklist, hasPhi, count);
      hasPhi' := hasPhi[merge := true];
    } else {
      assert hasPhi[merge := true] == hasPhi;
    }
  }

  /** The phis that one definition calls for. */
  method PhisFor(f: Function, bld: Builder, ghost types0: seq<Ty>, p: nat, defining: nat, worklist: array<nat>,
      onWorklist: seq<bool>, hasPhi: seq<bool>, count: nat)
    returns (onWorklist': seq<bool>, hasPhi': seq<bool>, count': nat)
    requires p < |bld.slots| == |bld.ty| == |bld.phis|
    requires FrontierOk(f.code, f.rpoIndex, f.frontier)
    requires count < worklist.Length == |f.code|
    requires Round(f.code, f.rpoIndex, f.frontier, bld.slots[p], Marks(onWorklist, hasPhi), worklist[..count], defining,
                   bld.phis[p], types0, f.types, bld.ty[p])
    requires defining < |f.code| && f.rpoIndex[defining] >= 0 && onWorklist[defining]
    modifies f`types, bld`phis, worklist
    ensures OnlyRow(old(bld.phis), bld.phis, p)
    ensures count' <= worklist.Length
    ensures Round(f.code, f.rpoIndex, f.frontier, bld.slots[p], Marks(onWorklist', hasPhi'), worklist[..count'], -1,
                  bld.phis[p], types0, f.types, bld.ty[p])
    ensures Unmarked(onWorklist') < Unmarked(onWorklist) || (onWorklist' == onWorklist && count' == count)
  {
    onWorklist', hasPhi', count' := onWorklist, hasPhi, count;
    var merges := f.frontier[defining];
    for i := 0 to |merges|
      invariant OnlyRow(old(bld.phis), bld.phis, p)
      invariant count' <= worklist.Length
      invariant Round(f.code, f.rpoIndex, f.frontier, bld.slots[p], Marks(onWorklist', hasPhi'), worklist[..count'],
                      defining, bld.phis[p], types0, f.types, bld.ty[p])
      invariant GivenTo(Marks(onWorklist', hasPhi'), merges, i, defining, |f.code|)
      invariant Unmarked(onWorklist') < Unmarked(onWorklist) || (onWorklist' == onWorklist && count' == count)
    {
      ghost var k := Marks(onWorklist', hasPhi');
      assert merges[i] in f.frontier[defining];
      onWorklist', hasPhi', count' :=
        MergeOne(f, bld, types0, p, defining, merges[i], worklist, onWorklist', hasPhi', count');
      GivenOne(k, Marks(onWorklist', hasPhi'), merges, i, defining, |f.code|);
    }
    AllMerges(f.code, f.rpoIndex, f.frontier, bld.slots[p], Marks(onWorklist', hasPhi'), worklist[..count'], defining,
              bld.phis[p], types0, f.types, bld.ty[p]);
  }

  /** The first `n` of the merges have their phis. */
  ghost predicate GivenTo(k: Marks, merges: seq<nat>, n: nat, defining: nat, blocks: nat) {
    match k
    case Marks(onWorklist, hasPhi) =>
      && |onWorklist| == |hasPhi| == blocks && defining < blocks && onWorklist[defining] && n <= |merges|
      && forall j | 0 <= j < n :: merges[j] < blocks && hasPhi[merges[j]]
  }

  lemma GivenOne(k: Marks, k': Marks, merges: seq<nat>, n: nat, defining: nat, blocks: nat)
    requires GivenTo(k, merges, n, defining, blocks) && n < |merges| && merges[n] < blocks
    requires k'.hasPhi == k.hasPhi[merges[n] := true] && |k'.onWorklist| == blocks && k'.onWorklist[defining]
    ensures GivenTo(k', merges, n + 1, defining, blocks)
  {
  }

  /** A row is right: a fresh phi of the slot's type in exactly the blocks of the iterated
      dominance frontier of the blocks that store to it. */
  ghost predicate RowRight(code: Code, rank: seq<int>, frontier: seq<seq<nat>>, s: nat, row: seq<Option<Instr>>,
      types0: seq<Ty>, types: seq<Ty>, ty: Ty) {
    && |row| == |code| == |rank|
    && |types| >= |types0| && types[..|types0|] == types0
    && (forall v | |types0| <= v < |types| :: types[v] == ty)
    && FreshRow(row, |types0|, |types|)
    && (forall b: nat | b < |code| :: row[b].Some? <==> InIteratedFrontier(code, rank, frontier, s, b))
    && (forall b: nat | b < |code| && row[b].Some? :: rank[b] >= 0)
  }

  lemma StartRound(code: Code, rank: seq<int>, frontier: seq<seq<nat>>, s: nat, k: Marks, work: seq<nat>,
      row: seq<Option<Instr>>, types: seq<Ty>, ty: Ty)
    requires Searching(code, rank, frontier, s, k, work) && Handled(frontier, k, work, -1)
    requires k.hasPhi == seq(|code|, _ => false) && row == seq(|code|, _ => None)
    ensures Round(code, rank, frontier, s, k, work, -1, row, types, types, ty)
  {
  }

  lemma NextRound(code: Code, rank: seq<int>, frontier: seq<seq<nat>>, s: nat, k: Marks, work: seq<nat>,
      row: seq<Option<Instr>>, types0: seq<Ty>, types: seq<Ty>, ty: Ty)
    requires Round(code, rank, frontier, s, k, work, -1, row, types0, types, ty) && |work| > 0
    ensures var x, rest := work[|work| - 1], work[..|work| - 1];
            && x < |code| == |rank| == |k.onWorklist| == |k.hasPhi| && rank[x] >= 0 && k.onWorklist[x]
            && Round(code, rank, frontier, s, k, rest, x, row, types0, types, ty)
  {
    TakeOne(code, rank, frontier, s, k, work);
  }

  lemma LastRound(code: Code, rank: seq<int>, frontier: seq<seq<nat>>, s: nat, k: Marks, row: seq<Option<Instr>>,
      types0: seq<Ty>, types: seq<Ty>, ty: Ty)
    requires FrontierOk(code, rank, frontier)
    requires Round(code, rank, frontier, s, k, [], -1, row, types0, types, ty)
    ensures RowRight(code, rank, frontier, s, row, types0, types, ty)
  {
    SearchDone(code, rank, frontier, s, k);
  }

  /** Take one block off the list and give the blocks of its frontier their phis. */
  method PlaceNext(f: Function, bld: Builder, ghost types0: seq<Ty>, p: nat, worklist: array<nat>,
      onWorklist: seq<bool>, hasPhi: seq<bool>, count: nat)
    returns (onWorklist': seq<bool>, hasPhi': seq<bool>, count': nat)
    requires p < |bld.slots| == |bld.ty| == |bld.phis|
    requires FrontierOk(f.code, f.rpoIndex, f.frontier)
    requires 0 < count <= worklist.Length == |f.code|
    requires Round(f.code, f.rpoIndex, f.frontier, bld.slots[p], Marks(onWorklist, hasPhi), worklist[..count], -1,
                   bld.phis[p], types0, f.types, bld.ty[p])
    modifies f`types, bld`phis, worklist
    ensures OnlyRow(old(bld.phis), bld.phis, p) && count' <= worklist.Length
    ensures Round(f.code, f.rpoIndex, f.frontier, bld.slots[p], Marks(onWorklist', hasPhi'), worklist[..count'], -1,
                  bld.phis[p], types0, f.types, bld.ty[p])
    ensures Unmarked(onWorklist') < Unmarked(onWorklist) || (onWorklist' == onWorklist && count' < count)
  {
    ghost var work := worklist[..count];
    NextRound(f.code, f.rpoIndex, f.frontier, bld.slots[p], Marks(onWorklist, hasPhi), work, bld.phis[p], types0,
        f.types, bld.ty[p]);
    var defining := worklist[count - 1];
    assert worklist[..count - 1] == work[..count - 1];
    onWorklist', hasPhi', count' := PhisFor(f, bld, types0, p, defining, worklist, onWorklist, hasPhi, count - 1);
  }

  /** Place the phis of promotion `p`. A block is on the worklist at most once, so a
      worklist as long as there are blocks is long enough. */
  method PlacePhis(f: Function, bld: Builder, p: nat)
    requires p < |bld.slots| == |bld.ty| == |bld.phis|
    requires FrontierOk(f.code, f.rpoIndex, f.frontier)
    requires bld.phis[p] == seq(|f.code|, _ => None)
    modifies f`types, bld`phis
    ensures OnlyRow(old(bld.phis), bld.phis, p)
    ensures RowRight(f.code, f.rpoIndex, f.frontier, bld.slots[p], bld.phis[p], old(f.types), f.types, bld.ty[p])
  {
    var s := bld.slots[p];
    var worklist := new nat[|f.code|];
    var onWorklist: seq<bool>, count: nat := StoringBlocks(f, s, worklist);
    var hasPhi := seq(|f.code|, _ => false);
    StartRound(f.code, f.rpoIndex, f.frontier, s, Marks(onWorklist, hasPhi), worklist[..count], bld.phis[p], f.types,
        bld.ty[p]);
    while count > 0
      invariant fresh(worklist) && count <= worklist.Length == |f.code|
      invariant OnlyRow(old(bld.phis), bld.phis, p)
      invariant Round(f.code, f.rpoIndex, f.frontier, s, Marks(onWorklist, hasPhi), worklist[..count], -1,
                      bld.phis[p], old(f.types), f.types, bld.ty[p])
      decreases Unmarked(onWorklist), count
    {
      onWorklist, hasPhi, count := PlaceNext(f, bld, old(f.types), p, worklist, onWorklist, hasPhi, count);
    }
    LastRound(f.code, f.rpoIndex, f.frontier, s, Marks(onWorklist, hasPhi), bld.phis[p], old(f.types), f.types,
        bld.ty[p]);
  }

  lemma TakeOne(code: Code, rank: seq<int>, frontier: seq<seq<nat>>, s: nat, k: Marks, work: seq<nat>)
    requires Searching(code, rank, frontier, s, k, work) && Handled(frontier, k, work, -1) && |work| > 0
    ensures var x, rest := work[|work| - 1], work[..|work| - 1];
            && x < |code| && rank[x] >= 0 && k.onWorklist[x]
            && Searching(code, rank, frontier, s, k, rest) && Handled(frontier, k, rest, x)
  {
    var x, rest := work[|work| - 1], work[..|work| - 1];
    assert x in work;
    assert forall b | b in rest :: b in work;
    assert forall b | b in work && b != x :: b in rest;
  }

  lemma SearchDone(code: Code, rank: seq<int>, frontier: seq<seq<nat>>, s: nat, k: Marks)
    requires FrontierOk(code, rank, frontier)
    requires Searching(code, rank, frontier, s, k, []) && Handled(frontier, k, [], -1)
    ensures forall b: nat | b < |code| :: k.hasPhi[b] <==> InIteratedFrontier(code, rank, frontier, s, b)
  {
    var blocks := set b: nat | b < |code| && k.hasPhi[b];
    assert ClosedUnderFrontier(code, rank, frontier, s, blocks);
  }
}
