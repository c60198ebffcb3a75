/** The indexer that follows a node whose chain can switch branch; `Step` specifies the class's methods. */
module ChainIndexer {
  import opened Bytes
  import opened ChainTables
  import opened Text

  datatype Config = Config(batch: nat, startHeight: nat, autoRewind: nat)

  /** The node as one pass sees it: its chain, whether the tip query fails, the heights whose
      hash query fails in the reorganisation check, and the heights whose indexing fails, with
      whether the error is one the loop retries. */
  datatype Node = Node(chain: Chain, tipFails: bool, hashFails: set<int>, indexFails: map<int, bool>)

  /** `saved` and `savedTip` are the persisted last height and tip; `stuckAt` and `stuckN` are the
      loop's stall counter. */
  datatype State = State(t: Tables, last: int, tip: int, saved: int, savedTip: int, running: bool, stuckAt: int, stuckN: int)

  datatype Event = Start | Stop | Pass(node: Node) | Rewind(from: int)

  /** The node with its texts as the service compares and stores them. */
  function TidyNode(node: Node): Node {
    node.(chain := TidyChain(node.chain))
  }

  const INITIAL := State(EMPTY, 0, 0, 0, 0, false, -1, 0)

  function Max(a: int, b: int): int { if a < b then b else a }
  function Min(a: int, b: int): int { if a < b then a else b }

  /** Empty when the height has no row. */
  function DbHash(t: Tables, height: int): string {
    if height in t.blocks then t.blocks[height].hash else ""
  }

  predicate Answers(node: Node, height: int) { height !in node.hashFails && 0 <= height < |node.chain| }

  // ---- specification ----

  /** The height to roll back from, walking down from h until the table and the node agree or
      the table ends; None when a query fails. */
  function WalkBack(t: Tables, node: Node, h: nat): Option<int> {
    if DbHash(t, h) == "" then Some(h + 1)
    else if !Answers(node, h) then None
    else if node.chain[h].hash == DbHash(t, h) then Some(h + 1)
    else if h == 0 then Some(0)
    else WalkBack(t, node, h - 1)
  }

  function Persisted(s: State): State { s.(saved := s.last, savedTip := s.tip) }

  function RolledBack(s: State, from: int): State {
    s.(t := Rollback(s.t, from), last := if s.last >= from then Max(from - 1, 0) else s.last)
  }

  function ReorgCheck(s: State, cur: int, node: Node): Option<State> {
    if cur <= 0 || DbHash(s.t, cur) == "" then Some(s)
    else if !Answers(node, cur) then None
    else if node.chain[cur].hash == DbHash(s.t, cur) then Some(s)
    else match WalkBack(s.t, node, cur - 1)
      case None => None
      case Some(from) => Some(Persisted(RolledBack(s, from)))
  }

  /** `rollbackFrom` followed by resetting the last height, as both rewinds do. */
  function Rewound(s: State, from: int): State {
    Persisted(s.(t := Rollback(s.t, from), last := Max(from - 1, 0)))
  }

  function IndexFailed(cfg: Config, s: State, h: int, retriable: bool): State {
    if cfg.autoRewind == 0 || !retriable then s.(stuckAt := -1, stuckN := 0) else
    var n := if s.stuckAt == h then s.stuckN + 1 else 1;
    if n < 5 then s.(stuckAt := h, stuckN := n)
    else Rewound(s, Max(h - cfg.autoRewind, 0)).(stuckAt := -1, stuckN := 0)
  }

  function IndexRange(cfg: Config, s: State, node: Node, h: int, end: int): State
    requires 0 <= h && end < |node.chain|
    decreases end - h
  {
    if h > end then s
    else if h in node.indexFails then IndexFailed(cfg, s, h, node.indexFails[h])
    else if HashClash(s.t, node.chain[h], h) then IndexFailed(cfg, s, h, false)
    else IndexRange(cfg, s.(t := IndexBlock(s.t, node.chain[h], h), last := h, stuckAt := -1, stuckN := 0), node, h + 1, end)
  }

  function Tip(node: Node): int { |node.chain| - 1 }

  function Checked(s: State, node: Node): Option<State> {
    if s.last > 0 then ReorgCheck(s, s.last, node) else Some(s)
  }

  function IndexPass(cfg: Config, s: State, node: Node): State {
    Persisted(if s.last >= Tip(node) || s.last < 0 then s else IndexRange(cfg, s, node, s.last + 1, Min(s.last + cfg.batch, Tip(node))))
  }

  function RunPass(cfg: Config, s: State, node: Node): State {
    if !s.running || node.tipFails then s else
    match Checked(s.(tip := Tip(node)), node)
    case None => s.(tip := Tip(node))
    case Some(s2) => IndexPass(cfg, s2, node)
  }

  function Started(cfg: Config, s: State): State {
    if s.running then s
    else s.(running := true, last := Max(s.saved, cfg.startHeight), tip := s.savedTip, stuckAt := -1, stuckN := 0)
  }

  function Step(cfg: Config, s: State, e: Event): State {
    match e
    case Start => Started(cfg, s)
    case Stop => s.(running := false)
    case Pass(node) => RunPass(cfg, s, node)
    case Rewind(from) => if from < 0 || s.running then s else Rewound(s, from)
  }

  // ---- invariant ----

  /** The tables are what indexing the branch from lo to the last height writes; the range may
      be empty, and then nothing is said of the branch. */
  ghost predicate Indexed(s: State, c: Chain, lo: int) {
    && 0 <= s.last && 0 <= s.saved
    && (s.t == EMPTY || (1 <= lo <= s.last < |c| && s.t == Scratch(c, lo, s.last) && s.saved == s.last))
  }

  ghost predicate Consistent(s: State, cs: iset<Chain>) {
    0 <= s.last && 0 <= s.saved && (s.t == EMPTY || exists c, lo | c in cs :: Indexed(s, c, lo))
  }

  ghost predicate Branches(cs: iset<Chain>) {
    HashTree(cs) && forall c | c in cs :: ValidChain(c)
  }

  lemma {:induction false} AgreeBelow(cs: iset<Chain>, c: Chain, d: Chain, h: int)
    requires Branches(cs) && c in cs && d in cs && 0 <= h < |c| && h < |d| && c[h].hash == d[h].hash
    ensures c[..h + 1] == d[..h + 1]
  {
  }

  lemma {:induction false} HashOfRow(c: Chain, lo: int, hi: int, h: int)
    requires ValidChain(c) && 0 <= lo <= hi + 1 && hi < |c|
    ensures DbHash(Scratch(c, lo, hi), h) == if lo <= h <= hi then c[h].hash else ""
  {
    ScratchIsWithin(c, lo, hi);
  }

  lemma {:induction false} NotEmpty(c: Chain, lo: int, hi: int)
    requires ValidChain(c) && 0 <= lo <= hi < |c|
    ensures Scratch(c, lo, hi) != EMPTY
  {
    ScratchIsWithin(c, lo, hi);
    assert hi in Scratch(c, lo, hi).blocks;
  }

  lemma {:induction false} EmptyRange(c: Chain, lo: int)
    requires 0 <= lo <= |c|
    ensures Scratch(c, lo, lo - 1) == EMPTY
  {
  }

  lemma {:induction false} RollbackEmpty(from: int)
    ensures Rollback(EMPTY, from) == EMPTY
  {
  }

  // ---- the reorganisation check ----

  /** The walk stops at the lowest height from which every row disagrees with the node, and
      never below the range. */
  lemma {:induction false} WalkFindsFork(cs: iset<Chain>, c: Chain, lo: int, hi: int, node: Node, h: nat)
    requires Branches(cs) && c in cs && node.chain in cs && 1 <= lo && lo - 1 <= h <= hi < |c|
    ensures match WalkBack(Scratch(c, lo, hi), node, h)
      case None => true
      case Some(from) =>
        && lo <= from <= h + 1
        && (forall k | from <= k <= h :: k < |node.chain| && node.chain[k].hash != c[k].hash)
        && (from > lo ==> from - 1 < |node.chain| && c[..from] == node.chain[..from])
    decreases h
  {
    hide Scratch, DbHash, HashTree;
    HashOfRow(c, lo, hi, h);
    if lo <= h && Answers(node, h) {
      if node.chain[h].hash == c[h].hash { AgreeBelow(cs, c, node.chain, h); }
      else { WalkFindsFork(cs, c, lo, hi, node, h - 1); }
    }
  }

  lemma {:induction false} RollbackAligns(c: Chain, d: Chain, lo: int, hi: int, from: int)
    requires ValidChain(c) && 1 <= lo <= from <= hi + 1 && hi < |c|
    requires from > lo ==> from - 1 < |d| && c[..from] == d[..from]
    ensures if from > lo then Rollback(Scratch(c, lo, hi), from) == Scratch(d, lo, from - 1)
            else Rollback(Scratch(c, lo, hi), from) == EMPTY
  {
    RollbackUndoesIndexing(c, lo, hi, from);
    if from > lo { ScratchOfPrefix(c, d, lo, from - 1); } else { EmptyRange(c, lo); }
  }

  /** Where a check that succeeds rolls back to: one above the last height when nothing
      disagrees. */
  function ForkOf(s: State, node: Node): int
    requires s.last > 0 && ReorgCheck(s, s.last, node).Some?
  {
    if DbHash(s.t, s.last) == "" || node.chain[s.last].hash == DbHash(s.t, s.last) then s.last + 1
    else WalkBack(s.t, node, s.last - 1).value
  }

  /** A check that succeeds drops exactly the rows that disagree with the node: every dropped
      height has another block there, and what stays is the node's own branch. */
  lemma {:induction false} CheckFindsFork(cs: iset<Chain>, s: State, c: Chain, lo: int, node: Node)
    requires Branches(cs) && c in cs && node.chain in cs && Indexed(s, c, lo) && s.t != EMPTY
    requires ReorgCheck(s, s.last, node).Some?
    ensures var from := ForkOf(s, node);
      && lo <= from <= s.last + 1
      && (forall k | from <= k <= s.last :: k < |node.chain| && node.chain[k].hash != c[k].hash)
      && (from > lo ==> from - 1 < |node.chain| && c[..from] == node.chain[..from])
  {
    hide Scratch, DbHash, HashTree, Rollback, WalkBack;
    HashOfRow(c, lo, s.last, s.last);
    if node.chain[s.last].hash == c[s.last].hash {
      AgreeBelow(cs, c, node.chain, s.last);
    } else {
      DisagreementFindsFork(cs, s, c, lo, node);
    }
  }

  lemma {:induction false} DisagreementFindsFork(cs: iset<Chain>, s: State, c: Chain, lo: int, node: Node)
    requires Branches(cs) && c in cs && node.chain in cs && 1 <= lo <= s.last < |c| && s.last < |node.chain|
    requires node.chain[s.last].hash != c[s.last].hash
    requires s.t == Scratch(c, lo, s.last) && WalkBack(s.t, node, s.last - 1).Some?
    ensures var from := WalkBack(s.t, node, s.last - 1).value;
      && lo <= from <= s.last + 1
      && (forall k | from <= k <= s.last :: k < |node.chain| && node.chain[k].hash != c[k].hash)
      && (from > lo ==> from - 1 < |node.chain| && c[..from] == node.chain[..from])
  {
    WalkFindsFork(cs, c, lo, s.last, node, s.last - 1);
  }

  /** Between the fork and the height every query is answered and disagrees, and the row below the
      fork, if there is one, is answered and agrees. */
  predicate ForkSeen(c: Chain, lo: int, node: Node, h: int, from: int)
    requires h < |c| && 0 <= lo
  {
    && lo <= from <= h + 1
    && (forall k | from <= k <= h :: Answers(node, k) && node.chain[k].hash != c[k].hash)
    && (from > lo ==> Answers(node, from - 1) && node.chain[from - 1].hash == c[from - 1].hash)
  }

  lemma {:induction false} WalkSucceedsIff(c: Chain, lo: int, hi: int, node: Node, h: nat)
    requires ValidChain(c) && 1 <= lo && lo - 1 <= h <= hi < |c|
    ensures WalkBack(Scratch(c, lo, hi), node, h).Some? <==> exists from :: ForkSeen(c, lo, node, h, from)
    decreases h
  {
    hide Scratch, DbHash;
    HashOfRow(c, lo, hi, h);
    if h < lo {
      assert ForkSeen(c, lo, node, h, lo);
    } else if Answers(node, h) {
      if node.chain[h].hash == c[h].hash {
        assert ForkSeen(c, lo, node, h, h + 1);
      } else {
        var below := h - 1;
        WalkSucceedsIff(c, lo, hi, node, below);
        if from :| ForkSeen(c, lo, node, h, from) { assert ForkSeen(c, lo, node, below, from); }
        if from :| ForkSeen(c, lo, node, below, from) { assert ForkSeen(c, lo, node, h, from); }
      }
    } else if from :| ForkSeen(c, lo, node, h, from) {
      assert false;
    }
  }

  /** A check succeeds exactly when the node answers for every height down to where its branch and
      the rows agree, or down to the lowest row. */
  lemma {:induction false} CheckSucceedsIff(s: State, c: Chain, lo: int, node: Node)
    requires ValidChain(c) && Indexed(s, c, lo) && s.t != EMPTY
    ensures Checked(s, node).Some? <==> exists from :: ForkSeen(c, lo, node, s.last, from)
  {
    hide Scratch, DbHash, WalkBack, Rollback;
    HashOfRow(c, lo, s.last, s.last);
    if Answers(node, s.last) {
      if node.chain[s.last].hash == c[s.last].hash {
        assert ForkSeen(c, lo, node, s.last, s.last + 1);
      } else {
        var below := s.last - 1;
        WalkSucceedsIff(c, lo, s.last, node, below);
        if from :| ForkSeen(c, lo, node, s.last, from) { assert ForkSeen(c, lo, node, below, from); }
        if from :| ForkSeen(c, lo, node, below, from) { assert ForkSeen(c, lo, node, s.last, from); }
      }
    } else if from :| ForkSeen(c, lo, node, s.last, from) {
      assert false;
    }
  }

  lemma {:induction false} CheckRollsBack(s: State, c: Chain, lo: int, node: Node, from: int)
    requires ValidChain(c) && Indexed(s, c, lo) && s.t != EMPTY && ReorgCheck(s, s.last, node).Some?
    requires from == ForkOf(s, node) && lo <= from <= s.last + 1
    ensures var r := ReorgCheck(s, s.last, node).value;
      r.t == Rollback(s.t, from) && r.last == from - 1 && r.saved == from - 1 && r.running == s.running
  {
    HashOfRow(c, lo, s.last, s.last);
    if from == s.last + 1 { RollbackUndoesIndexing(c, lo, s.last, from); }
  }

  /** After a check that succeeds the tables are a range of the node's own chain. */
  lemma {:induction false} CheckAligns(cs: iset<Chain>, s: State, c: Chain, lo: int, node: Node)
    requires Branches(cs) && c in cs && node.chain in cs && Indexed(s, c, lo)
    requires Checked(s, node).Some?
    ensures var r := Checked(s, node).value;
      && Indexed(r, node.chain, lo) && r.running == s.running && (s.t == EMPTY ==> r == s)
      && (s.t != EMPTY ==> r.last >= lo - 1)
  {
    if s.t != EMPTY { CheckAlignsRows(cs, s, c, lo, node); }
  }

  lemma {:induction false} CheckAlignsRows(cs: iset<Chain>, s: State, c: Chain, lo: int, node: Node)
    requires Branches(cs) && c in cs && node.chain in cs && Indexed(s, c, lo) && s.t != EMPTY
    requires ReorgCheck(s, s.last, node).Some?
    ensures var r := ReorgCheck(s, s.last, node).value;
      Indexed(r, node.chain, lo) && r.running == s.running && r.last >= lo - 1
  {
    CheckFindsFork(cs, s, c, lo, node);
    var from := ForkOf(s, node);
    CheckRollsBack(s, c, lo, node, from);
    RolledBackAligns(s, c, node.chain, lo, from, ReorgCheck(s, s.last, node).value);
  }

  lemma {:induction false} RolledBackAligns(s: State, c: Chain, d: Chain, lo: int, from: int, r: State)
    requires ValidChain(c) && Indexed(s, c, lo) && s.t != EMPTY && lo <= from <= s.last + 1
    requires from > lo ==> from - 1 < |d| && c[..from] == d[..from]
    requires r.t == Rollback(s.t, from) && r.last == from - 1 && r.saved == from - 1
    ensures Indexed(r, d, lo)
  {
    RollbackAligns(c, d, lo, s.last, from);
  }

  // ---- indexing ----

  lemma {:induction false} NoClash(cs: iset<Chain>, c: Chain, lo: int, hi: int)
    requires Branches(cs) && c in cs && 0 <= lo <= hi + 1 && hi + 1 < |c|
    ensures !HashClash(Scratch(c, lo, hi), c[hi + 1], hi + 1)
  {
    ScratchIsWithin(c, lo, hi);
  }

  /** The tables are a range of the chain that ends at the last height; the range may be empty. */
  ghost predicate RangeOf(s: State, c: Chain, lo: int) {
    1 <= lo <= s.last + 1 && s.last < |c| && s.t == Scratch(c, lo, s.last)
  }

  lemma {:induction false} RewoundRange(s: State, c: Chain, lo: int, from: int)
    requires ValidChain(c) && RangeOf(s, c, lo) && from <= s.last + 1
    ensures Indexed(Rewound(s, from), c, lo)
  {
    RollbackUndoesIndexing(c, lo, s.last, from);
    var hi := if from <= s.last then from - 1 else s.last;
    if hi < lo { assert Scratch(c, lo, hi) == EMPTY; }
  }

  lemma {:induction false} RangeIsIndexed(s: State, c: Chain, lo: int)
    requires RangeOf(s, c, lo) && s.saved == s.last
    ensures Indexed(s, c, lo)
  {
    if s.last < lo { EmptyRange(c, lo); }
  }

  function OneMore(s: State, node: Node, h: int): State
    requires 0 <= h < |node.chain|
  {
    s.(t := IndexBlock(s.t, node.chain[h], h), last := h, stuckAt := -1, stuckN := 0)
  }

  lemma {:induction false} FailureKeeps(cfg: Config, s: State, c: Chain, lo: int, retriable: bool)
    requires ValidChain(c) && RangeOf(s, c, lo)
    ensures var r := IndexFailed(cfg, s, s.last + 1, retriable);
      Indexed(r.(saved := r.last), c, lo) && r.running == s.running && (cfg.autoRewind == 0 ==> r.last == s.last)
  {
    RangeIsIndexed(s.(saved := s.last), c, lo);
    if cfg.autoRewind > 0 { RewoundRange(s, c, lo, Max(s.last + 1 - cfg.autoRewind, 0)); }
  }

  /** The first height from h on whose indexing fails, or one past the end. */
  function FirstFailing(node: Node, h: int, end: int): (f: int)
    ensures h <= f <= if h <= end then end + 1 else h
    ensures forall k | h <= k < f :: k !in node.indexFails
    ensures f <= end ==> f in node.indexFails
    decreases end - h
  {
    if h > end || h in node.indexFails then h else FirstFailing(node, h + 1, end)
  }

  /** The state with rows of the chain from lo up to last, where h was the next height. */
  function Extended(s: State, c: Chain, lo: int, last: int): State
    requires 0 <= lo && last < |c|
  {
    if last <= s.last then s else s.(t := Scratch(c, lo, last), last := last, stuckAt := -1, stuckN := 0)
  }

  /** A batch writes exactly the rows of the chain below its first failing height, and then does
      what that failure asks for, if there is one. */
  lemma {:induction false} IndexingExtends(cs: iset<Chain>, cfg: Config, s: State, node: Node, lo: int, end: int)
    requires Branches(cs) && node.chain in cs && RangeOf(s, node.chain, lo) && s.last <= end < |node.chain|
    ensures var f := FirstFailing(node, s.last + 1, end);
            var m := Extended(s, node.chain, lo, f - 1);
      && RangeOf(m, node.chain, lo) && m.last == f - 1
      && IndexRange(cfg, s, node, s.last + 1, end) == if f > end then m else IndexFailed(cfg, m, f, node.indexFails[f])
    decreases end - s.last
  {
    hide Scratch, IndexBlock, IndexFailed, HashClash, OneMore, Branches;
    var h := s.last + 1;
    if h <= end {
      NoClash(cs, node.chain, lo, s.last);
      if h !in node.indexFails {
        OneMoreRange(s, node, lo);
        IndexStep(cfg, s, node, end);
        IndexingExtends(cs, cfg, OneMore(s, node, h), node, lo, end);
        ExtendedOn(s, node, lo, FirstFailing(node, h, end) - 1);
      }
    }
  }

  lemma {:induction false} ExtendedOn(s: State, node: Node, lo: int, last: int)
    requires RangeOf(s, node.chain, lo) && s.last < last < |node.chain|
    ensures OneMore(s, node, s.last + 1).last == s.last + 1
    ensures Extended(OneMore(s, node, s.last + 1), node.chain, lo, last) == Extended(s, node.chain, lo, last)
  {
    OneMoreRange(s, node, lo);
  }

  lemma {:induction false} IndexStep(cfg: Config, s: State, node: Node, end: int)
    requires 0 <= s.last + 1 <= end < |node.chain| && s.last + 1 !in node.indexFails
    requires !HashClash(s.t, node.chain[s.last + 1], s.last + 1)
    ensures IndexRange(cfg, s, node, s.last + 1, end) == IndexRange(cfg, OneMore(s, node, s.last + 1), node, s.last + 2, end)
  {
    hide IndexBlock;
  }

  /** In every case the batch keeps the invariant. */
  lemma {:induction false} IndexingKeeps(cs: iset<Chain>, cfg: Config, s: State, node: Node, lo: int, end: int)
    requires Branches(cs) && node.chain in cs && RangeOf(s, node.chain, lo) && s.last <= end < |node.chain|
    ensures var r := IndexRange(cfg, s, node, s.last + 1, end);
      && Indexed(r.(saved := r.last), node.chain, lo) && r.running == s.running
      && (cfg.autoRewind == 0 ==> s.last <= r.last)
  {
    hide Scratch, IndexRange;
    IndexingExtends(cs, cfg, s, node, lo, end);
    var f := FirstFailing(node, s.last + 1, end);
    var m := Extended(s, node.chain, lo, f - 1);
    if f > end { RangeIsIndexed(m.(saved := m.last), node.chain, lo); }
    else { FailureKeeps(cfg, m, node.chain, lo, node.indexFails[f]); }
  }

  lemma {:induction false} OneMoreRange(s: State, node: Node, lo: int)
    requires RangeOf(s, node.chain, lo) && s.last + 1 < |node.chain|
    ensures RangeOf(OneMore(s, node, s.last + 1), node.chain, lo) && OneMore(s, node, s.last + 1).last == s.last + 1
  {
  }

  lemma {:induction false} AlignedRange(s: State, c: Chain, lo: int) returns (from: int)
    requires Indexed(s, c, lo) && s.last < |c|
    ensures RangeOf(s, c, from) && from == if s.t == EMPTY then s.last + 1 else lo
  {
    from := if s.t == EMPTY then s.last + 1 else lo;
    if s.t == EMPTY { EmptyRange(c, from); }
  }

  /** Where the rows of the next pass start: the rows there are stay, otherwise the next height. */
  function NextLo(s: State, lo: int): int { if s.t == EMPTY then s.last + 1 else lo }

  lemma {:induction false} IndexPassKeeps(cs: iset<Chain>, cfg: Config, s: State, node: Node, lo: int) returns (lo': int)
    requires Branches(cs) && node.chain in cs && Indexed(s, node.chain, lo)
    ensures var r := IndexPass(cfg, s, node);
      && lo' == NextLo(s, lo) && Indexed(r, node.chain, lo') && r.running == s.running
      && (cfg.autoRewind == 0 ==> s.last <= r.last)
  {
    lo' := NextLo(s, lo);
    if s.last < Tip(node) {
      lo' := AlignedRange(s, node.chain, lo);
      IndexingKeeps(cs, cfg, s, node, lo', Min(s.last + cfg.batch, Tip(node)));
    }
  }

  /** Without a failing height the pass leaves all rows of the chain up to a batch further on. */
  lemma {:induction false} IndexPassExtends(cs: iset<Chain>, cfg: Config, s: State, node: Node, lo: int)
    requires Branches(cs) && node.chain in cs && Indexed(s, node.chain, lo) && s.last <= Tip(node) && node.indexFails == map[]
    ensures var r := IndexPass(cfg, s, node);
      && RangeOf(r, node.chain, NextLo(s, lo)) && r.last == r.saved == Min(s.last + cfg.batch, Tip(node)) && r.running == s.running
  {
    hide Scratch, IndexRange, FirstFailing, Indexed;
    var lo' := AlignedRange(s, node.chain, lo);
    if s.last < Tip(node) {
      IndexingExtends(cs, cfg, s, node, lo', Min(s.last + cfg.batch, Tip(node)));
    }
  }

  /** A whole pass keeps the invariant: it changes nothing but the tip when it gives up before
      its check succeeds, and otherwise leaves a range of the node's own chain. */
  lemma {:induction false} PassKeeps(cs: iset<Chain>, cfg: Config, s: State, c: Chain, lo: int, node: Node) returns (lo': int)
    requires Branches(cs) && c in cs && node.chain in cs && Indexed(s, c, lo)
    ensures var r := RunPass(cfg, s, node);
      if !s.running || node.tipFails then r == s
      else if Checked(s.(tip := Tip(node)), node) == None then r == s.(tip := Tip(node))
      else Indexed(r, node.chain, lo') && r.running
  {
    lo' := lo;
    if s.running && !node.tipFails {
      var s1 := s.(tip := Tip(node));
      if Checked(s1, node).Some? {
        CheckAligns(cs, s1, c, lo, node);
        lo' := IndexPassKeeps(cs, cfg, Checked(s1, node).value, node, lo);
      }
    }
  }

  // ---- whole runs ----

  function Run(cfg: Config, s: State, es: seq<Event>): (r: State)
    requires s.last >= 0 && s.saved >= 0
    ensures r.last >= 0 && r.saved >= 0
  {
    if es == [] then s else
    var prev := Run(cfg, s, es[..|es| - 1]);
    StepInRange(cfg, prev, es[|es| - 1]);
    Step(cfg, prev, es[|es| - 1])
  }

  lemma {:induction false} RangeInRange(cfg: Config, s: State, node: Node, h: int, end: int)
    requires s.last >= 0 && 0 <= h && end < |node.chain|
    ensures IndexRange(cfg, s, node, h, end).last >= 0
    decreases end - h
  {
    if h <= end && h !in node.indexFails && !HashClash(s.t, node.chain[h], h) {
      RangeInRange(cfg, s.(t := IndexBlock(s.t, node.chain[h], h), last := h, stuckAt := -1, stuckN := 0), node, h + 1, end);
    }
  }

  lemma {:induction false} StepInRange(cfg: Config, s: State, e: Event)
    requires s.last >= 0 && s.saved >= 0
    ensures Step(cfg, s, e).last >= 0 && Step(cfg, s, e).saved >= 0
  {
    if e.Pass? && s.running && !e.node.tipFails {
      var checked := Checked(s.(tip := Tip(e.node)), e.node);
      if checked.Some? && checked.value.last < Tip(e.node) {
        RangeInRange(cfg, checked.value, e.node, checked.value.last + 1, Min(checked.value.last + cfg.batch, Tip(e.node)));
      }
    }
  }

  /** What an operator can check before acting: starting does not jump over rows, and a rewind
      does not start above the next height, unless there is nothing to jump over. */
  predicate SafeEvent(cfg: Config, s: State, e: Event) {
    match e
    case Start => s.running || s.t == EMPTY || s.saved >= cfg.startHeight
    case Rewind(from) => from < 0 || s.running || s.t == EMPTY || from <= s.last + 1
    case _ => true
  }

  lemma {:induction false} StepKeeps(cs: iset<Chain>, cfg: Config, s: State, e: Event)
    requires Branches(cs) && Consistent(s, cs)
    requires e.Pass? ==> e.node.chain in cs
    requires SafeEvent(cfg, s, e)
    ensures Consistent(Step(cfg, s, e), cs)
  {
    StepInRange(cfg, s, e);
    var r := Step(cfg, s, e);
    if e.Pass? {
      if s.t == EMPTY {
        var lo := PassKeeps(cs, cfg, s, e.node.chain, 1, e.node);
        assert r.t == EMPTY || Indexed(r, e.node.chain, lo);
      } else {
        var c, lo :| c in cs && Indexed(s, c, lo);
        var lo' := PassKeeps(cs, cfg, s, c, lo, e.node);
        assert Indexed(r, c, lo) || Indexed(r, e.node.chain, lo');
      }
    } else if s.t == EMPTY {
      if e.Rewind? { RollbackEmpty(e.from); }
    } else {
      var c, lo :| c in cs && Indexed(s, c, lo);
      if e.Rewind? && r != s { RewoundRange(s, c, lo, e.from); }
      assert Indexed(r, c, lo);
    }
  }

  /** Every event of the run is safe when it comes, and every pass sees a branch of the tree. */
  predicate SafeRun(cs: iset<Chain>, cfg: Config, s: State, es: seq<Event>)
    requires s.last >= 0 && s.saved >= 0
  {
    forall i | 0 <= i < |es| ::
      SafeEvent(cfg, Run(cfg, s, es[..i]), es[i]) && (es[i].Pass? ==> es[i].node.chain in cs)
  }

  /** Over every safe run the tables are what indexing some one branch over a contiguous range
      ending at the last height writes. */
  lemma {:induction false} RunsStayConsistent(cs: iset<Chain>, cfg: Config, es: seq<Event>)
    requires Branches(cs) && SafeRun(cs, cfg, INITIAL, es)
    ensures Consistent(Run(cfg, INITIAL, es), cs)
  {
    if es != [] {
      var init := es[..|es| - 1];
      forall i | 0 <= i < |init|
        ensures SafeEvent(cfg, Run(cfg, INITIAL, init[..i]), init[i]) && (init[i].Pass? ==> init[i].node.chain in cs)
      {
        assert init[..i] == es[..i];
      }
      RunsStayConsistent(cs, cfg, init);
      StepKeeps(cs, cfg, Run(cfg, INITIAL, init), es[|es| - 1]);
    }
  }

  // ---- stalling ----

  /** Any number of retriable failures at one height, one after the other. */
  function Stalled(cfg: Config, s: State, h: int, n: nat): State {
    if n == 0 then s else IndexFailed(cfg, Stalled(cfg, s, h, n - 1), h, true)
  }

  /** Whatever was counted before, a height indexed, a failure at another height, or one that is
      not retried starts the count again: four failures at a height leave tables and last height,
      the fifth rewinds them by the configured number of blocks, but not below zero. */
  lemma {:induction false} StallCountsToFive(cfg: Config, s: State, h: int, other: int, retried: bool)
    requires cfg.autoRewind > 0 && h >= 0 && (other != h || !retried) && (s.stuckN < 4 || other != s.stuckAt || !retried)
    ensures var s0 := IndexFailed(cfg, s, other, retried);
            var r := Stalled(cfg, s0, h, 5);
            var from := if h < cfg.autoRewind then 0 else h - cfg.autoRewind;
      && (forall n: nat | n <= 4 :: Stalled(cfg, s0, h, n).t == s.t && Stalled(cfg, s0, h, n).last == s.last)
      && r.t == Rollback(s.t, from) && r.last == r.saved == (if from > 0 then from - 1 else 0)
  {
    hide Rollback;
    var s0 := IndexFailed(cfg, s, other, retried);
    assert s0.t == s.t && s0.last == s.last && (s0.stuckAt != h || s0.stuckN == 0);
    StalledFour(cfg, s0, h, 1);
    StalledFour(cfg, s0, h, 2);
    StalledFour(cfg, s0, h, 3);
    StalledFour(cfg, s0, h, 4);
    assert Stalled(cfg, s0, h, 5) == IndexFailed(cfg, Stalled(cfg, s0, h, 4), h, true);
  }

  lemma {:induction false} StalledFour(cfg: Config, s: State, h: int, n: nat)
    requires cfg.autoRewind > 0 && 0 < n <= 4 && (s.stuckAt != h || s.stuckN == 0)
    ensures Stalled(cfg, s, h, n) == s.(stuckAt := h, stuckN := n)
    decreases n
  {
    hide Rewound;
    if n > 1 { StalledFour(cfg, s, h, n - 1); } else { assert Stalled(cfg, s, h, 0) == s; }
  }

  /** A height that is indexed starts the count again. */
  lemma {:induction false} IndexingStopsStall(cfg: Config, s: State, node: Node, h: int, end: int)
    requires 0 <= h <= end < |node.chain| && cfg.autoRewind > 0 && (forall k | h <= k <= end :: k !in node.indexFails)
    ensures var r := IndexRange(cfg, s, node, h, end); r.stuckN == 0
    decreases end - h
  {
    hide IndexBlock, HashClash;
    if h < end && !HashClash(s.t, node.chain[h], h) { IndexingStopsStall(cfg, OneMore(s, node, h), node, h + 1, end); }
  }

  // ---- stopping and starting again ----

  /** A pass that gets past its check persists where it is and the tip it saw. */
  lemma {:induction false} PassPersists(cfg: Config, s: State, node: Node)
    requires s.running && !node.tipFails && Checked(s.(tip := Tip(node)), node).Some?
    ensures var r := RunPass(cfg, s, node); r.saved == r.last && r.savedTip == r.tip == Tip(node)
  {
    hide IndexRange;
    var s2 := Checked(s.(tip := Tip(node)), node).value;
    if s2.last < Tip(node) && s2.last >= 0 { RangeKeepsTip(cfg, s2, node, s2.last + 1, Min(s2.last + cfg.batch, Tip(node))); }
  }

  lemma {:induction false} RangeKeepsTip(cfg: Config, s: State, node: Node, h: int, end: int)
    requires 0 <= h && end < |node.chain|
    ensures IndexRange(cfg, s, node, h, end).tip == s.tip
    decreases end - h
  {
    hide IndexBlock, HashClash;
    if h <= end && h !in node.indexFails && !HashClash(s.t, node.chain[h], h) {
      RangeKeepsTip(cfg, OneMore(s, node, h), node, h + 1, end);
    }
  }

  /** After such a pass, at or above the start height, stopping and starting again changes nothing
      but the stall counter. */
  lemma {:induction false} RestartResumes(cfg: Config, s: State, node: Node)
    requires s.running && !node.tipFails && Checked(s.(tip := Tip(node)), node).Some? && RunPass(cfg, s, node).last >= cfg.startHeight
    requires RunPass(cfg, s, node).running
    ensures var r := RunPass(cfg, s, node);
      Step(cfg, Step(cfg, r, Stop), Start) == r.(stuckAt := -1, stuckN := 0)
  {
    hide RunPass;
    PassPersists(cfg, s, node);
  }

  // ---- the unique column ----

  /** No two heights ever hold the same block hash. */
  predicate UniqueHashes(t: Tables) {
    forall h, k | h in t.blocks && k in t.blocks && h != k :: t.blocks[h].hash != t.blocks[k].hash
  }

  lemma {:induction false} RollbackKeepsUnique(t: Tables, from: int)
    requires UniqueHashes(t)
    ensures UniqueHashes(Rollback(t, from))
  {
  }

  lemma {:induction false} RangeKeepsUnique(cfg: Config, s: State, node: Node, h: int, end: int)
    requires UniqueHashes(s.t) && 0 <= h && end < |node.chain|
    ensures UniqueHashes(IndexRange(cfg, s, node, h, end).t)
    decreases end - h
  {
    hide UniqueHashes, Rollback, IndexTxs;
    if h <= end {
      if h !in node.indexFails && !HashClash(s.t, node.chain[h], h) {
        OneMoreUnique(s, node, h);
        RangeKeepsUnique(cfg, OneMore(s, node, h), node, h + 1, end);
      } else {
        RollbackKeepsUnique(s.t, Max(h - cfg.autoRewind, 0));
      }
    }
  }

  lemma {:induction false} OneMoreUnique(s: State, node: Node, h: int)
    requires UniqueHashes(s.t) && 0 <= h < |node.chain| && !HashClash(s.t, node.chain[h], h)
    ensures UniqueHashes(OneMore(s, node, h).t)
  {
    hide IndexTxs;
    IndexTxsKeepBlocks(PutBlock(s.t, node.chain[h], h), node.chain[h], |node.chain[h].txs|, h);
  }

  /** Over every run, safe or not, the hash column stays unique. */
  lemma {:induction false} HashesStayUnique(cfg: Config, es: seq<Event>)
    ensures UniqueHashes(Run(cfg, INITIAL, es).t)
  {
    if es != [] {
      hide Step, UniqueHashes;
      var s := Run(cfg, INITIAL, es[..|es| - 1]);
      HashesStayUnique(cfg, es[..|es| - 1]);
      StepKeepsUnique(cfg, s, es[|es| - 1]);
    }
  }

  lemma {:induction false} StepKeepsUnique(cfg: Config, s: State, e: Event)
    requires UniqueHashes(s.t)
    ensures UniqueHashes(Step(cfg, s, e).t)
  {
    hide UniqueHashes, IndexRange, Rollback;
    match e
    case Rewind(from) => RollbackKeepsUnique(s.t, from);
    case Pass(node) =>
      var s1 := s.(tip := Tip(node));
      if s.running && !node.tipFails && Checked(s1, node).Some? {
        CheckKeepsUnique(s1, node);
        var s2 := Checked(s1, node).value;
        if 0 <= s2.last < Tip(node) { RangeKeepsUnique(cfg, s2, node, s2.last + 1, Min(s2.last + cfg.batch, Tip(node))); }
      }
    case _ =>
  }

  lemma {:induction false} CheckKeepsUnique(s: State, node: Node)
    requires UniqueHashes(s.t) && Checked(s, node).Some?
    ensures UniqueHashes(Checked(s, node).value.t)
  {
    hide UniqueHashes, Rollback;
    if s.last > 0 && DbHash(s.t, s.last) != "" && node.chain[s.last].hash != DbHash(s.t, s.last) {
      RollbackKeepsUnique(s.t, WalkBack(s.t, node, s.last - 1).value);
    }
  }

  // ---- exactly when an event keeps the tables contiguous ----

  lemma {:induction false} TablesFixLast(c: Chain, lo: int, hi: int, d: Chain, k: int, end: int)
    requires ValidChain(c) && 0 <= lo <= hi < |c| && ValidChain(d) && 0 <= k <= end < |d|
    requires Scratch(c, lo, hi) == Scratch(d, k, end)
    ensures hi == end
  {
    ScratchIsWithin(c, lo, hi);
    ScratchIsWithin(d, k, end);
    assert hi in Scratch(c, lo, hi).blocks && end in Scratch(d, k, end).blocks;
  }

  /** The same tables under another last height are not consistent. */
  lemma {:induction false} OnlyItsOwnLast(cs: iset<Chain>, s: State, r: State)
    requires Branches(cs) && Consistent(s, cs) && s.t != EMPTY && r.t == s.t && r.last != s.last
    ensures !Consistent(r, cs)
  {
    if Consistent(r, cs) {
      var c, lo :| c in cs && Indexed(s, c, lo);
      var d, k :| d in cs && Indexed(r, d, k);
      TablesFixLast(c, lo, s.last, d, k, r.last);
    }
  }

  /** Starting and rewinding keep the tables consistent exactly when they are safe. A start is
      unsafe when the persisted height fell below the start height, which an automatic rewind
      can cause: the loop then skips the heights between. */
  lemma {:induction false} SafeIffConsistent(cs: iset<Chain>, cfg: Config, s: State, e: Event)
    requires Branches(cs) && Consistent(s, cs) && !e.Pass?
    ensures Consistent(Step(cfg, s, e), cs) <==> SafeEvent(cfg, s, e)
  {
    if SafeEvent(cfg, s, e) {
      StepKeeps(cs, cfg, s, e);
    } else {
      if e.Rewind? {
        var c, lo :| c in cs && Indexed(s, c, lo);
        RollbackUndoesIndexing(c, lo, s.last, e.from);
      }
      OnlyItsOwnLast(cs, s, Step(cfg, s, e));
    }
  }

  // ---- a run that reaches an unsafe start ----

  const GAP_CHAIN: Chain := [Block("g", 0, []), Block("a", 1, []), Block("b", 2, []), Block("c", 3, [])]
  const GAP_CONFIG := Config(10, 2, 10)

  function FailingAt(h: int): Event { Pass(Node(GAP_CHAIN, false, {}, map[h := true])) }

  /** Five retriable failures at height 3 rewind to 0, height 1 is indexed, the loop stops. */
  const GAP_RUN: seq<Event> :=
    [Start, FailingAt(3), FailingAt(3), FailingAt(3), FailingAt(3), FailingAt(3), FailingAt(2), Stop]

  const GAP_TABLES := Tables(map[1 := BlockRow("a", 1, 0)], map[], map[])

  function GapState(n: nat): State {
    if n == 0 then INITIAL
    else if n == 1 then State(EMPTY, 2, 0, 0, 0, true, -1, 0)
    else if n <= 5 then State(EMPTY, 2, 3, 2, 3, true, 3, n - 1)
    else if n == 6 then State(EMPTY, 0, 3, 0, 3, true, -1, 0)
    else if n <= 8 then State(GAP_TABLES, 1, 3, 1, 3, n == 7, 2, 1)
    else State(GAP_TABLES, 2, 3, 1, 3, true, -1, 0)
  }

  lemma {:induction false} GapStep(n: nat)
    requires n < 8
    ensures Step(GAP_CONFIG, GapState(n), GAP_RUN[n]) == GapState(n + 1)
  {
    if n == 5 {
      RollbackEmpty(0);
    } else if n == 6 {
      var b := GAP_CHAIN[1];
      assert IndexBlock(EMPTY, b, 1) == GAP_TABLES by { assert IndexTxs(PutBlock(EMPTY, b, 1), b, 0, 1) == GAP_TABLES; }
    }
  }

  lemma {:induction false} GapRunState(n: nat)
    requires n <= 8
    ensures Run(GAP_CONFIG, INITIAL, GAP_RUN[..n]) == GapState(n)
  {
    if n > 0 {
      GapRunState(n - 1);
      GapStep(n - 1);
      assert GAP_RUN[..n][..n - 1] == GAP_RUN[..n - 1];
    }
  }

  lemma {:induction false} GapAfterStart()
    ensures Run(GAP_CONFIG, INITIAL, GAP_RUN) == GapState(8) && Run(GAP_CONFIG, INITIAL, GAP_RUN + [Start]) == GapState(9)
    ensures GapState(8).t.blocks.Keys == GapState(9).t.blocks.Keys == {1}
    ensures !SafeEvent(GAP_CONFIG, GapState(8), Start)
  {
    GapRunState(8);
    assert GAP_RUN[..8] == GAP_RUN && (GAP_RUN + [Start])[..8] == GAP_RUN;
    assert 1 in GAP_TABLES.blocks && 1 !in EMPTY.blocks;
    assert GapState(8) == State(GAP_TABLES, 1, 3, 1, 3, false, 2, 1);
    assert Step(GAP_CONFIG, GapState(8), Start) == GapState(9);
  }

  /** With automatic rewinds on, a run of the service alone reaches a state whose next start
      leaves a gap: rows end at height 1 and indexing resumes at 3. */
  lemma {:induction false} StartCanLeaveGap()
    ensures var s, r := Run(GAP_CONFIG, INITIAL, GAP_RUN), Run(GAP_CONFIG, INITIAL, GAP_RUN + [Start]);
      !SafeEvent(GAP_CONFIG, s, Start) && r.t.blocks.Keys == {1} && r.last == 2 && Missing(r, 2)
  {
    GapAfterStart();
  }

  // ---- a missing height stays missing until a rewind reaches it ----

  function AutoRewind(cfg: Config, s: State, h: int, retriable: bool): Option<int> {
    if cfg.autoRewind == 0 || !retriable || (s.stuckAt != h || s.stuckN < 4) then None else Some(Max(h - cfg.autoRewind, 0))
  }

  function RewindInRange(cfg: Config, s: State, node: Node, h: int, end: int): Option<int>
    requires 0 <= h && end < |node.chain|
    decreases end - h
  {
    if h > end then None
    else if h in node.indexFails then AutoRewind(cfg, s, h, node.indexFails[h])
    else if HashClash(s.t, node.chain[h], h) then None
    else RewindInRange(cfg, OneMore(s, node, h), node, h + 1, end)
  }

  /** The height that the event rewinds to, by hand or automatically, if it rewinds. */
  function RewindOf(cfg: Config, s: State, e: Event): Option<int> {
    match e
    case Start => None
    case Stop => None
    case Rewind(from) => if from < 0 || s.running then None else Some(from)
    case Pass(node) =>
      if !s.running || node.tipFails then None else
      match Checked(s.(tip := Tip(node)), node)
      case None => None
      case Some(s2) =>
        if s2.last >= Tip(node) || s2.last < 0 then None
        else RewindInRange(cfg, s2, node, s2.last + 1, Min(s2.last + cfg.batch, Tip(node)))
  }

  /** The height has no row although indexing is past it. */
  predicate Missing(s: State, g: int) { g !in s.t.blocks && g <= s.last }

  ghost predicate SameBelow(t: Tables, u: Tables, g: int) {
    forall k | k < g :: (k in t.blocks <==> k in u.blocks) && (k in t.blocks ==> t.blocks[k] == u.blocks[k])
  }

  predicate Reaches(rewind: Option<int>, g: int) { rewind.Some? && rewind.value <= g }

  lemma {:induction false} IndexTxsKeepBlocks(t: Tables, b: Block, n: nat, height: int)
    requires n <= |b.txs|
    ensures IndexTxs(t, b, n, height).blocks == t.blocks
  {
    if n > 0 { IndexTxsKeepBlocks(t, b, n - 1, height); }
  }

  /** The check's walk never goes below a missing height. */
  lemma {:induction false} WalkStopsAtMissing(t: Tables, node: Node, h: nat, g: int)
    requires g !in t.blocks && 0 <= g <= h
    ensures WalkBack(t, node, h).Some? ==> WalkBack(t, node, h).value > g
    decreases h
  {
    if g < h { WalkStopsAtMissing(t, node, h - 1, g); }
  }

  lemma {:induction false} CheckKeepsMissing(s: State, node: Node, g: int)
    requires Missing(s, g) && 1 <= g && Checked(s, node).Some?
    ensures var r := Checked(s, node).value; Missing(r, g) && SameBelow(s.t, r.t, g)
  {
    if DbHash(s.t, s.last) != "" && node.chain[s.last].hash != DbHash(s.t, s.last) {
      WalkStopsAtMissing(s.t, node, s.last - 1, g);
    }
  }

  lemma {:induction false} FailureKeepsMissing(cfg: Config, s: State, h: int, retriable: bool, g: int)
    requires Missing(s, g) && 1 <= g
    ensures var r := IndexFailed(cfg, s, h, retriable);
            var rewind := AutoRewind(cfg, s, h, retriable);
      if Reaches(rewind, g) then r.last < g && forall k | k in r.t.blocks :: k < rewind.value
      else Missing(r, g) && SameBelow(s.t, r.t, g)
  {
  }

  lemma {:induction false} RangeKeepsMissing(cfg: Config, s: State, node: Node, h: int, end: int, g: int)
    requires Missing(s, g) && 1 <= g < h && end < |node.chain|
    ensures var r := IndexRange(cfg, s, node, h, end);
            var rewind := RewindInRange(cfg, s, node, h, end);
      if Reaches(rewind, g) then r.last < g && forall k | k in r.t.blocks :: k < rewind.value
      else Missing(r, g) && SameBelow(s.t, r.t, g)
    decreases end - h
  {
    hide IndexFailed, AutoRewind, IndexTxs, HashClash;
    if h <= end {
      if h in node.indexFails {
        FailureKeepsMissing(cfg, s, h, node.indexFails[h], g);
      } else if HashClash(s.t, node.chain[h], h) {
        FailureKeepsMissing(cfg, s, h, false, g);
        NoRewindWithoutRetry(cfg, s, h);
      } else {
        IndexTxsKeepBlocks(PutBlock(s.t, node.chain[h], h), node.chain[h], |node.chain[h].txs|, h);
        RangeKeepsMissing(cfg, OneMore(s, node, h), node, h + 1, end, g);
      }
    }
  }

  lemma {:induction false} NoRewindWithoutRetry(cfg: Config, s: State, h: int)
    ensures AutoRewind(cfg, s, h, false) == None
  {
  }

  /** Whatever the node answers, an event leaves a missing height missing, and the rows below it
      as they are, exactly when it does not rewind to that height or below; when it does, indexing
      goes on from below it. */
  lemma {:induction false} StepKeepsMissing(cfg: Config, s: State, e: Event, g: int)
    requires Missing(s, g) && 1 <= g <= cfg.startHeight
    ensures var r := Step(cfg, s, e);
            var rewind := RewindOf(cfg, s, e);
      if Reaches(rewind, g) then r.last < g && forall k | k in r.t.blocks :: k < rewind.value
      else Missing(r, g) && SameBelow(s.t, r.t, g)
  {
    hide WalkBack, IndexRange, RewindInRange, ReorgCheck;
    if e.Pass? && s.running && !e.node.tipFails {
      var s1 := s.(tip := Tip(e.node));
      if Checked(s1, e.node).Some? {
        CheckKeepsMissing(s1, e.node, g);
        var s2 := Checked(s1, e.node).value;
        if s2.last < Tip(e.node) {
          RangeKeepsMissing(cfg, s2, e.node, s2.last + 1, Min(s2.last + cfg.batch, Tip(e.node)), g);
        }
      }
    }
  }

  /** No event of the run rewinds to the height or below. */
  predicate NeverReaches(cfg: Config, s: State, es: seq<Event>, g: int)
    requires s.last >= 0 && s.saved >= 0
  {
    forall i | 0 <= i < |es| :: !Reaches(RewindOf(cfg, Run(cfg, s, es[..i]), es[i]), g)
  }

  /** Over any run in which no rewind reaches it, a height that a start skipped gets no row, and
      the rows below it are never compared, dropped or replaced again, whatever branch the node
      is on. */
  lemma {:induction false} MissingStaysMissing(cfg: Config, s: State, es: seq<Event>, g: int)
    requires s.last >= 0 && s.saved >= 0 && Missing(s, g) && 1 <= g <= cfg.startHeight && NeverReaches(cfg, s, es, g)
    ensures Missing(Run(cfg, s, es), g) && SameBelow(s.t, Run(cfg, s, es).t, g)
  {
    if es != [] {
      hide Step, RewindOf;
      var n := |es| - 1;
      assert forall i | 0 <= i < n :: es[..n][..i] == es[..i];
      MissingStaysMissing(cfg, s, es[..n], g);
      StepKeepsMissing(cfg, Run(cfg, s, es[..n]), es[n], g);
    }
  }

  /** From the gap that the run of the service reaches: until a rewind to height 2 or below,
      height 2 stays out and height 1 keeps its row. */
  lemma {:induction false} GapStays(es: seq<Event>)
    requires NeverReaches(GAP_CONFIG, Run(GAP_CONFIG, INITIAL, GAP_RUN + [Start]), es, 2)
    ensures var r := Run(GAP_CONFIG, Run(GAP_CONFIG, INITIAL, GAP_RUN + [Start]), es);
      2 !in r.t.blocks && 1 in r.t.blocks && r.t.blocks[1].hash == "a" && r.last >= 2
  {
    hide Step, NeverReaches;
    GapAfterStart();
    MissingStaysMissing(GAP_CONFIG, GapState(9), es, 2);
  }

  const REPAIR: seq<Event> :=
    [FailingAt(3), FailingAt(3), FailingAt(3), FailingAt(3), FailingAt(3), Pass(Node(GAP_CHAIN, false, {}, map[]))]

  function RepairState(n: nat): State {
    if n == 0 then GapState(9)
    else if n <= 4 then State(GAP_TABLES, 2, 3, 2, 3, true, 3, n)
    else State(EMPTY, 0, 3, 0, 3, true, -1, 0)
  }

  lemma {:induction false} RepairStep(n: nat)
    requires n < 5
    ensures Step(GAP_CONFIG, RepairState(n), REPAIR[n]) == RepairState(n + 1)
  {
    assert 2 !in GAP_TABLES.blocks;
    if n == 4 {
      assert Rollback(GAP_TABLES, 0) == EMPTY;
      assert Rewound(RepairState(4), 0) == RepairState(5).(stuckAt := 3, stuckN := 4);
    }
  }

  lemma {:induction false} RepairRun(n: nat)
    requires n <= 5
    ensures Run(GAP_CONFIG, RepairState(0), REPAIR[..n]) == RepairState(n)
  {
    hide Step;
    if n > 0 {
      RepairRun(n - 1);
      RepairStep(n - 1);
      assert REPAIR[..n][..n - 1] == REPAIR[..n - 1];
    }
  }

  lemma {:induction false} GapBranch()
    ensures Branches(iset{GAP_CHAIN})
  {
  }

  /** Such a rewind does close it: five more retriable failures at height 3 rewind to 0, and the
      next pass leaves every row from height 1 to 3. */
  lemma {:induction false} RewindClosesGap()
    ensures var r := Run(GAP_CONFIG, Run(GAP_CONFIG, INITIAL, GAP_RUN + [Start]), REPAIR);
      RangeOf(r, GAP_CHAIN, 1) && r.last == 3
  {
    hide Step, Scratch;
    GapAfterStart();
    RepairRun(5);
    assert REPAIR[..|REPAIR| - 1] == REPAIR[..5];
    GapBranch();
    RepairPass();
  }

  lemma {:induction false} RepairPass()
    requires Branches(iset{GAP_CHAIN})
    ensures var r := Step(GAP_CONFIG, RepairState(5), REPAIR[5]); RangeOf(r, GAP_CHAIN, 1) && r.last == 3
  {
    hide IndexPass, Scratch, Branches;
    IndexPassExtends(iset{GAP_CHAIN}, GAP_CONFIG, RepairState(5), REPAIR[5].node, 1);
  }

  // ---- without automatic rewinds every start is safe ----

  /** Rows, when there are any, all lie above the start height, and a running loop has passed it. */
  ghost predicate AboveStart(cfg: Config, s: State, cs: iset<Chain>) {
    && 0 <= s.last && 0 <= s.saved
    && (s.running ==> cfg.startHeight <= s.last)
    && (s.t == EMPTY || exists c, lo | c in cs :: Indexed(s, c, lo) && cfg.startHeight < lo)
  }

  lemma {:induction false} PassStaysAbove(cs: iset<Chain>, cfg: Config, s: State, c: Chain, lo: int, node: Node)
    requires Branches(cs) && c in cs && node.chain in cs && cfg.autoRewind == 0
    requires Indexed(s, c, lo) && (s.t == EMPTY || cfg.startHeight < lo) && (s.running ==> cfg.startHeight <= s.last)
    ensures AboveStart(cfg, RunPass(cfg, s, node), cs)
  {
    var r := RunPass(cfg, s, node);
    var s1 := s.(tip := Tip(node));
    if s.running && !node.tipFails && Checked(s1, node).Some? {
      CheckAligns(cs, s1, c, lo, node);
      var s2 := Checked(s1, node).value;
      var lo' := IndexPassKeeps(cs, cfg, s2, node, lo);
      assert Indexed(r, node.chain, lo');
    } else if s.t != EMPTY {
      assert Indexed(r, c, lo);
    }
  }

  lemma {:induction false} StepStaysAbove(cs: iset<Chain>, cfg: Config, s: State, e: Event)
    requires Branches(cs) && cfg.autoRewind == 0 && AboveStart(cfg, s, cs)
    requires e.Pass? ==> e.node.chain in cs
    requires e.Rewind? ==> SafeEvent(cfg, s, e)
    ensures SafeEvent(cfg, s, e) && AboveStart(cfg, Step(cfg, s, e), cs)
  {
    StepInRange(cfg, s, e);
    var r := Step(cfg, s, e);
    if s.t == EMPTY {
      if e.Pass? { PassStaysAbove(cs, cfg, s, e.node.chain, 1, e.node); }
      if e.Rewind? { RollbackEmpty(e.from); }
    } else {
      var c, lo :| c in cs && Indexed(s, c, lo) && cfg.startHeight < lo;
      if e.Pass? {
        PassStaysAbove(cs, cfg, s, c, lo, e.node);
      } else {
        if e.Rewind? && r != s { RewoundRange(s, c, lo, e.from); }
        assert Indexed(r, c, lo);
      }
    }
  }

  /** With automatic rewinds off (the default) only manual rewinds can be unsafe. */
  lemma {:induction false} DefaultRunsStayConsistent(cs: iset<Chain>, cfg: Config, es: seq<Event>)
    requires Branches(cs) && cfg.autoRewind == 0
    requires forall i | 0 <= i < |es| ::
      (es[i].Pass? ==> es[i].node.chain in cs) && (es[i].Rewind? ==> SafeEvent(cfg, Run(cfg, INITIAL, es[..i]), es[i]))
    ensures SafeRun(cs, cfg, INITIAL, es) && Consistent(Run(cfg, INITIAL, es), cs)
  {
    DefaultRunIsSafe(cs, cfg, es);
    RunsStayConsistent(cs, cfg, es);
  }

  lemma {:induction false} DefaultRunIsSafe(cs: iset<Chain>, cfg: Config, es: seq<Event>)
    requires Branches(cs) && cfg.autoRewind == 0
    requires forall i | 0 <= i < |es| ::
      (es[i].Pass? ==> es[i].node.chain in cs) && (es[i].Rewind? ==> SafeEvent(cfg, Run(cfg, INITIAL, es[..i]), es[i]))
    ensures SafeRun(cs, cfg, INITIAL, es) && AboveStart(cfg, Run(cfg, INITIAL, es), cs)
  {
    if es != [] {
      hide SafeRun, AboveStart, Step;
      var n := |es| - 1;
      var init, e := es[..n], es[n];
      assert es == init + [e];
      assert forall i | 0 <= i < n :: init[..i] == es[..i] && init[i] == es[i];
      DefaultRunIsSafe(cs, cfg, init);
      StepStaysAbove(cs, cfg, Run(cfg, INITIAL, init), e);
      SafeSnoc(cs, cfg, init, e);
    }
  }

  lemma {:induction false} SafeSnoc(cs: iset<Chain>, cfg: Config, init: seq<Event>, e: Event)
    requires SafeRun(cs, cfg, INITIAL, init) && SafeEvent(cfg, Run(cfg, INITIAL, init), e) && (e.Pass? ==> e.node.chain in cs)
    ensures SafeRun(cs, cfg, INITIAL, init + [e])
  {
    hide SafeEvent, Run;
    var es := init + [e];
    forall i | 0 <= i < |es|
      ensures SafeEvent(cfg, Run(cfg, INITIAL, es[..i]), es[i]) && (es[i].Pass? ==> es[i].node.chain in cs)
    {
      if i < |init| { assert init[..i] == es[..i]; } else { assert es[..i] == init; }
    }
  }

  // ---- catching up ----

  predicate Healthy(node: Node) { !node.tipFails && node.hashFails == {} && node.indexFails == map[] }

  /** One pass on a node that answers every query leaves exactly the rows of the node's chain from
      where they started up to a batch above the fork, or to the tip. Rows that the check kept
      start where they did; if it kept none, they start right above the fork. */
  lemma {:induction false} HealthyPass(cs: iset<Chain>, cfg: Config, s: State, c: Chain, lo: int, node: Node)
    requires Branches(cs) && c in cs && node.chain in cs && Healthy(node) && s.running
    requires Indexed(s, c, lo) && s.last <= Tip(node)
    ensures var checked := Checked(s.(tip := Tip(node)), node);
            var r := RunPass(cfg, s, node);
      && checked.Some? && 0 <= checked.value.last <= Tip(node)
      && RangeOf(r, node.chain, NextLo(checked.value, lo)) && r.running
      && r.last == r.saved == Min(checked.value.last + cfg.batch, Tip(node))
  {
    hide Scratch, IndexPass;
    var s1 := s.(tip := Tip(node));
    if s.t != EMPTY { HealthyWalk(s.t, node, s.last - 1); }
    CheckAligns(cs, s1, c, lo, node);
    CheckLowers(s1, node);
    IndexPassExtends(cs, cfg, Checked(s1, node).value, node, lo);
  }

  /** While the node's branch is shorter than the indexed rows no check can succeed: whatever the
      nodes seen in the meantime answer, their passes move the tip and nothing else. */
  lemma {:induction false} ShorterBranchStalls(cfg: Config, s: State, c: Chain, lo: int, nodes: seq<Node>)
    requires ValidChain(c) && Indexed(s, c, lo) && s.t != EMPTY && s.running
    requires forall i | 0 <= i < |nodes| :: |nodes[i].chain| <= s.last
    ensures exists tip :: PassesOver(cfg, s, nodes) == s.(tip := tip)
  {
    if nodes == [] {
      assert PassesOver(cfg, s, nodes) == s.(tip := s.tip);
    } else {
      var n := |nodes| - 1;
      ShorterBranchStalls(cfg, s, c, lo, nodes[..n]);
      var tip :| PassesOver(cfg, s, nodes[..n]) == s.(tip := tip);
      ShorterPassStalls(cfg, s.(tip := tip), c, lo, nodes[n]);
      assert PassesOver(cfg, s, nodes) == s.(tip := if nodes[n].tipFails then tip else Tip(nodes[n]));
    }
  }

  lemma {:induction false} ShorterPassStalls(cfg: Config, s: State, c: Chain, lo: int, node: Node)
    requires ValidChain(c) && Indexed(s, c, lo) && s.t != EMPTY && s.running && |node.chain| <= s.last
    ensures RunPass(cfg, s, node) == s.(tip := if node.tipFails then s.tip else Tip(node))
  {
    hide Scratch;
    HashOfRow(c, lo, s.last, s.last);
  }

  function PassesOver(cfg: Config, s: State, nodes: seq<Node>): State {
    if nodes == [] then s else RunPass(cfg, PassesOver(cfg, s, nodes[..|nodes| - 1]), nodes[|nodes| - 1])
  }

  lemma {:induction false} CheckLowers(s: State, node: Node)
    requires s.last >= 0 && Checked(s, node).Some?
    ensures 0 <= Checked(s, node).value.last <= s.last
  {
  }

  lemma {:induction false} HealthyWalk(t: Tables, node: Node, h: int)
    requires Healthy(node) && h < |node.chain|
    ensures h >= 0 ==> WalkBack(t, node, h).Some?
    decreases h
  {
    if h > 0 { HealthyWalk(t, node, h - 1); }
  }

  function Passes(cfg: Config, s: State, node: Node, n: nat): (r: State)
    requires s.last >= 0 && s.saved >= 0
    ensures r.last >= 0 && r.saved >= 0
  {
    if n == 0 then s else
    var prev := Passes(cfg, s, node, n - 1);
    StepInRange(cfg, prev, Pass(node));
    RunPass(cfg, prev, node)
  }

  /** The length of n batches. */
  function Batches(cfg: Config, n: nat): (k: nat)
    ensures k == n * cfg.batch
  {
    if n == 0 then 0 else assert n * cfg.batch == (n - 1) * cfg.batch + cfg.batch; Batches(cfg, n - 1) + cfg.batch
  }

  /** The tables are the node's rows from lo up to the last height, which has reached the given
      height or the tip. */
  ghost predicate Follows(s: State, node: Node, lo: int, reached: int) {
    s.running && RangeOf(s, node.chain, lo) && s.last == s.saved == Min(reached, Tip(node))
  }

  /** While the node stays on one branch and answers, n passes leave exactly the rows of that
      branch up to n batches above the fork, or to the tip. */
  lemma {:induction false} PassesCatchUp(cs: iset<Chain>, cfg: Config, s: State, c: Chain, lo: int, node: Node, n: nat)
    requires Branches(cs) && c in cs && node.chain in cs && Healthy(node) && s.running
    requires Indexed(s, c, lo) && s.last <= Tip(node) && n > 0
    ensures var checked := Checked(s.(tip := Tip(node)), node);
      checked.Some? && Follows(Passes(cfg, s, node, n), node, NextLo(checked.value, lo), checked.value.last + n * cfg.batch)
  {
    hide Checked, Scratch;
    HealthyPass(cs, cfg, s, c, lo, node);
    var checked := Checked(s.(tip := Tip(node)), node).value;
    assert Batches(cfg, n) == n * cfg.batch;
    PassesFollow(cs, cfg, s, c, lo, node, checked, n);
  }

  lemma {:induction false} PassesFollow(cs: iset<Chain>, cfg: Config, s: State, c: Chain, lo: int, node: Node, checked: State, n: nat)
    requires Branches(cs) && c in cs && node.chain in cs && Healthy(node) && s.running
    requires Indexed(s, c, lo) && s.last <= Tip(node) && n > 0 && Checked(s.(tip := Tip(node)), node) == Some(checked)
    ensures Follows(Passes(cfg, s, node, n), node, NextLo(checked, lo), checked.last + Batches(cfg, n))
  {
    hide Checked, Scratch, RunPass;
    if n == 1 {
      assert Passes(cfg, s, node, 0) == s && Batches(cfg, 0) == 0;
      HealthyPass(cs, cfg, s, c, lo, node);
    } else {
      PassesFollow(cs, cfg, s, c, lo, node, checked, n - 1);
      OneMorePass(cs, cfg, Passes(cfg, s, node, n - 1), node, NextLo(checked, lo), checked.last + Batches(cfg, n - 1));
    }
  }

  lemma {:induction false} OneMorePass(cs: iset<Chain>, cfg: Config, s: State, node: Node, lo: int, reached: int)
    requires Branches(cs) && node.chain in cs && Healthy(node) && Follows(s, node, lo, reached) && reached >= 0
    ensures Follows(RunPass(cfg, s, node), node, lo, reached + cfg.batch)
  {
    hide Checked, Scratch, RunPass;
    RangeIsIndexed(s, node.chain, lo);
    HealthyPass(cs, cfg, s, node.chain, lo, node);
    RangeIsIndexed(s.(tip := Tip(node)), node.chain, lo);
    AlignedStays(cs, s.(tip := Tip(node)), lo, node);
    if s.t == EMPTY && lo <= s.last { NotEmpty(node.chain, lo, s.last); }
  }

  lemma {:induction false} AlignedStays(cs: iset<Chain>, s: State, lo: int, node: Node)
    requires Branches(cs) && node.chain in cs && Healthy(node) && Indexed(s, node.chain, lo)
    ensures Checked(s, node) == Some(s)
  {
    if s.t != EMPTY { HashOfRow(node.chain, lo, s.last, s.last); }
  }

  // ---- the service's own code ----

  class CoreIndexer {
    const cfg: Config
    var blocks: map<int, BlockRow>
    var txs: TxTable
    var addresses: AddrTable
    var savedHeight: int
    var savedTip: int
    var lastHeight: int
    var tipHeight: int
    var running: bool
    var stuckAt: int
    var stuckN: int

    function Current(): State
      reads this
    {
      State(Tables(blocks, txs, addresses), lastHeight, tipHeight, savedHeight, savedTip, running, stuckAt, stuckN)
    }

    constructor (cfg: Config)
      ensures this.cfg == cfg && Current() == INITIAL
    {
      this.cfg := cfg;
      blocks, txs, addresses := map[], map[], map[];
      savedHeight, savedTip, lastHeight, tipHeight := 0, 0, 0, 0;
      running, stuckAt, stuckN := false, -1, 0;
    }

    method BlockHashAtHeight(height: int) returns (hash: string)
      ensures hash == DbHash(Current().t, height)
    {
      if height !in blocks { return ""; }
      return blocks[height].hash;
    }

    method PersistState()
      modifies `savedHeight, `savedTip
      ensures Current() == Persisted(old(Current()))
    {
      savedHeight, savedTip := lastHeight, tipHeight;
    }

    /** One database transaction: rows are deleted by height. */
    method RollbackFrom(height: int)
      modifies `blocks, `txs, `addresses
      ensures Current() == old(Current()).(t := Rollback(old(Current().t), height))
    {
      addresses := map k | k in addresses && addresses[k].height < height :: addresses[k];
      txs := map k | k in txs && txs[k].height < height :: txs[k];
      blocks := map h | h in blocks && h < height :: blocks[h];
    }

    /** The rows of one transaction's outputs, inserted in order. */
    method InsertAddressRows(m: AddrTable, tx: ChainTx, height: int) returns (r: AddrTable, totalOut: int)
      ensures r == InsertVouts(m, TidyTx(tx), |tx.vouts|, height) && totalOut == ValueOut(TidyTx(tx).vouts, |tx.vouts|)
    {
      hide Trim, Lower;
      r, totalOut := m, 0;
      var txid := Lower(Trim(tx.txid));
      ghost var tidy := TidyTx(tx);
      for j := 0 to |tx.vouts|
        invariant r == InsertVouts(m, tidy, j, height) && totalOut == ValueOut(tidy.vouts, j)
      {
        var o := tx.vouts[j];
        totalOut := totalOut + o.sats;
        r := InsertOutputRows(r, txid, o, height);
      }
    }

    method InsertOutputRows(m: AddrTable, txid: string, o: Vout, height: int) returns (r: AddrTable)
      ensures r == InsertAddresses(m, txid, TidyVout(o), |o.addresses|, height)
    {
      r := m;
      for k := 0 to |o.addresses|
        invariant r == InsertAddresses(m, txid, TidyVout(o), k, height)
      {
        var ad := Trim(o.addresses[k]);
        if ad == "" { continue; }
        var key := AddrKey(ad, txid, o.n);
        if key in r { continue; }
        r := r[key := AddrRow(o.sats, height)];
      }
    }

    method WriteTxs(t: Tables, b: Block, height: int) returns (u: Tables)
      ensures u == IndexTxs(t, TidyBlock(b), |b.txs|, height)
    {
      hide Trim, Lower, InsertVouts, ValueOut, IsTxid;
      u := t;
      ghost var tidy := TidyBlock(b);
      var bhash := Lower(Trim(b.hash));
      for i := 0 to |b.txs|
        invariant u == IndexTxs(t, tidy, i, height)
      {
        var tx := b.txs[i];
        var txid := Lower(Trim(tx.txid));
        if !IsTxid(txid) { continue; }
        var rawHex := Trim(tx.rawHex);
        var m, totalOut := InsertAddressRows(u.addresses, tx, height);
        var row := TxRow(height, bhash, b.time, tx.verdict, totalOut, rawHex);
        if txid in u.txs && rawHex == "" {
          row := row.(verdict := u.txs[txid].verdict, rawHex := u.txs[txid].rawHex);
        }
        u := Tables(u.blocks, u.txs[txid := row], m);
      }
    }

    /** One database transaction: nothing is written when a query or a constraint fails. */
    method IndexHeight(node: Node, height: int) returns (ok: bool, retriable: bool)
      requires 0 <= height < |node.chain|
      modifies `blocks, `txs, `addresses
      ensures ok == !(height in node.indexFails || HashClash(old(Current().t), TidyBlock(node.chain[height]), height))
      ensures retriable == (height in node.indexFails && node.indexFails[height])
      ensures Current() ==
        if ok then old(Current()).(t := IndexBlock(old(Current().t), TidyBlock(node.chain[height]), height)) else old(Current())
    {
      hide Trim, Lower;
      if height in node.indexFails { return false, node.indexFails[height]; }
      var b := node.chain[height];
      var bhash := Lower(Trim(b.hash));
      if exists h | h in blocks :: h != height && blocks[h].hash == bhash { return false, false; }
      var t := Tables(blocks[height := BlockRow(bhash, b.time, |b.txs|)], txs, addresses);
      t := WriteTxs(t, b, height);
      blocks, txs, addresses := t.blocks, t.txs, t.addresses;
      return true, false;
    }

    /** The downward walk of the check, which only reads. */
    method FindRollbackHeight(curHeight: int, node: Node) returns (r: Option<int>)
      requires curHeight > 0
      ensures r == WalkBack(Current().t, TidyNode(node), curHeight - 1)
    {
      hide Trim, Lower, TidyTx, DbHash;
      var rollbackTo := curHeight;
      var h := curHeight - 1;
      ghost var walk := WalkBack(Current().t, TidyNode(node), h);
      while h >= 0
        invariant -1 <= h
        invariant h >= 0 ==> walk == WalkBack(Current().t, TidyNode(node), h)
        invariant h < 0 ==> walk == Some(rollbackTo)
        decreases h
      {
        var dbh := BlockHashAtHeight(h);
        if dbh == "" { rollbackTo := h + 1; break; }
        if !Answers(node, h) { return None; }
        var ch := Lower(Trim(node.chain[h].hash));
        if ch == dbh { rollbackTo := h + 1; break; }
        if h == 0 { rollbackTo := 0; }
        h := h - 1;
      }
      return Some(rollbackTo);
    }

    method HandlePossibleReorg(curHeight: int, node: Node) returns (ok: bool)
      modifies this
      ensures match ReorgCheck(old(Current()), curHeight, TidyNode(node))
        case None => !ok && Current() == old(Current())
        case Some(r) => ok && Current() == r
    {
      if curHeight <= 0 { return true; }
      var dbHash := BlockHashAtHeight(curHeight);
      if dbHash == "" { return true; }
      if !Answers(node, curHeight) { return false; }
      var coreHash := Lower(Trim(node.chain[curHeight].hash));
      if coreHash == dbHash { return true; }
      var rollbackTo := FindRollbackHeight(curHeight, node);
      if rollbackTo == None { return false; }
      RollbackFrom(rollbackTo.value);
      if lastHeight >= rollbackTo.value {
        lastHeight := rollbackTo.value - 1;
        if lastHeight < 0 { lastHeight := 0; }
      }
      PersistState();
      return true;
    }

    /** The rollback and height reset shared by the manual and the automatic rewind. */
    method RewindTo(from: int)
      modifies this
      ensures Current() == Rewound(old(Current()), from)
    {
      RollbackFrom(from);
      lastHeight := from - 1;
      if lastHeight < 0 { lastHeight := 0; }
      PersistState();
    }

    method RewindChainFrom(fromHeight: int) returns (ok: bool)
      modifies this
      ensures ok == !(fromHeight < 0 || old(running))
      ensures Current() == Step(cfg, old(Current()), Rewind(fromHeight))
    {
      if fromHeight < 0 || running { return false; }
      RewindTo(fromHeight);
      return true;
    }

    method StartLoop()
      modifies this
      ensures Current() == Step(cfg, old(Current()), Start)
    {
      if running { return; }
      running := true;
      lastHeight, tipHeight := savedHeight, savedTip;
      if lastHeight < cfg.startHeight { lastHeight := cfg.startHeight; }
      stuckAt, stuckN := -1, 0;
    }

    method StopLoop()
      modifies `running
      ensures Current() == Step(cfg, old(Current()), Stop)
    {
      running := false;
    }

    method NoteIndexFailure(h: int, retriable: bool)
      modifies this
      ensures Current() == IndexFailed(cfg, old(Current()), h, retriable)
    {
      var doAuto := cfg.autoRewind > 0 && retriable;
      if doAuto {
        if stuckAt == h { stuckN := stuckN + 1; } else { stuckAt, stuckN := h, 1; }
      } else {
        stuckAt, stuckN := -1, 0;
      }
      if doAuto && stuckN >= 5 {
        var from := h - cfg.autoRewind;
        if from < 0 { from := 0; }
        RewindTo(from);
        stuckAt, stuckN := -1, 0;
      }
    }

    method IndexHeights(node: Node, from: int, end: int)
      requires 0 <= from && end < |node.chain|
      modifies this
      ensures Current() == IndexRange(cfg, old(Current()), TidyNode(node), from, end)
    {
      var h := from;
      hide Trim, Lower, IndexBlock, IndexFailed, HashClash;
      ghost var all := IndexRange(cfg, Current(), TidyNode(node), from, end);
      while h <= end
        invariant from <= h && all == IndexRange(cfg, Current(), TidyNode(node), h, end)
        decreases end - h
      {
        var ok, retriable := IndexHeight(node, h);
        if !ok {
          NoteIndexFailure(h, retriable);
          return;
        }
        stuckAt, stuckN := -1, 0;
        lastHeight := h;
        h := h + 1;
      }
    }

    /** One turn of the service's loop. */
    method LoopPass(node: Node)
      modifies this
      ensures Current() == Step(cfg, old(Current()), Pass(TidyNode(node)))
    {
      hide WalkBack, IndexRange, IndexFailed, Rollback, DbHash;
      if !running || node.tipFails { return; }
      tipHeight := |node.chain| - 1;
      if lastHeight > 0 {
        var ok := HandlePossibleReorg(lastHeight, node);
        if !ok { return; }
      }
      if lastHeight < 0 || lastHeight >= tipHeight {
        PersistState();
        return;
      }
      var end := lastHeight + cfg.batch;
      if end > tipHeight { end := tipHeight; }
      IndexHeights(node, lastHeight + 1, end);
      PersistState();
    }
  }
}
