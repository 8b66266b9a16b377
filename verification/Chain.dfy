/** The block index: blocks linked to their predecessors and, by skip pointers, to further
    ancestors; and the active chain as a vector of them. */
module Chain {

  /* ---- skip heights ---- */

  // Bitwise and, bit by bit.
  function And(x: nat, y: nat): (r: nat)
    ensures r <= x && r <= y
    decreases x
  {
    if x == 0 || y == 0 then 0
    else (if x % 2 == 1 && y % 2 == 1 then 1 else 0) + 2 * And(x / 2, y / 2)
  }

  // n & (n - 1)
  function InvertLowestOne(n: nat): (r: nat)
    ensures r < n || r == n == 0
  {
    if n == 0 then 0 else And(n, n - 1)
  }

  // Any height strictly below serves.
  function GetSkipHeight(height: nat): (r: nat)
    ensures height > 0 ==> r < height
  {
    if height < 2 then 0
    else if height % 2 == 1 then InvertLowestOne(InvertLowestOne(height - 1)) + 1
    else InvertLowestOne(height)
  }

  /* ---- the walk by skip heights ---- */

  // Skipping is no worse than going one back and skipping from there.
  predicate Skips(h: nat, t: nat)
    requires t < h
  {
    var skip, skipPrev := GetSkipHeight(h), GetSkipHeight(h - 1);
    skip == t || (skip > t && !(skipPrev < skip - 2 && skipPrev >= t))
  }

  function Next(h: nat, t: nat): (r: nat)
    requires t < h
    ensures t <= r < h
  {
    if Skips(h, t) then GetSkipHeight(h) else h - 1
  }

  // How many pointers are followed from height h to height t.
  function Steps(h: nat, t: nat): nat
    requires t <= h
    decreases h
  {
    if h == t then 0 else 1 + Steps(Next(h, t), t)
  }

  lemma {:induction false} StepsOnce(h: nat, t: nat)
    requires t <= h
    ensures Steps(h, t) == if t == h then 0 else 1 + Steps(Next(h, t), t)
  {
  }

  /* ---- blocks ---- */

  class BlockIndex {
    const pprev: BlockIndex?
    const nHeight: nat
    var pskip: BlockIndex?

    constructor (pprev: BlockIndex?)
      ensures this.pprev == pprev && nHeight == (if pprev == null then 0 else pprev.nHeight + 1) && pskip == null
    {
      this.pprev := pprev;
      nHeight := if pprev == null then 0 else pprev.nHeight + 1;
      pskip := null;
    }

    // The ancestor at a height, following skip pointers where that is better.
    // Where every block has one, it follows as many pointers as the walk by heights takes steps.
    method GetAncestor(height: int, ghost tree: set<BlockIndex>) returns (r: BlockIndex?, ghost steps: nat)
      requires InTree(this, tree)
      ensures r == if 0 <= height <= nHeight then Ancestor(this, height) else null
      ensures 0 <= height <= nHeight && AllSkip(tree) ==> steps == Steps(nHeight, height)
    {
      hide GetSkipHeight, Steps, Ancestor, Linked, Tree, AllSkip;
      steps := 0;
      if height > nHeight || height < 0 { return null, 0; }
      SelfInTree(this, tree);
      var pindexWalk: BlockIndex := this;
      var heightWalk := nHeight;
      while heightWalk > height
        invariant height <= heightWalk == pindexWalk.nHeight && InTree(pindexWalk, tree) && Linked(pindexWalk)
        invariant Ancestor(pindexWalk, height) == Ancestor(this, height)
        invariant AllSkip(tree) ==> steps + Steps(heightWalk, height) == Steps(nHeight, height)
        decreases heightWalk
      {
        StepsOnce(heightWalk, height);
        Pointers(pindexWalk, height, tree);
        steps := steps + 1;
        var heightSkip := GetSkipHeight(heightWalk);
        var heightSkipPrev := GetSkipHeight(heightWalk - 1);
        if pindexWalk.pskip != null
           && (heightSkip == height
               || (heightSkip > height && !(heightSkipPrev < heightSkip - 2 && heightSkipPrev >= height))) {
          pindexWalk := pindexWalk.pskip;
          heightWalk := heightSkip;
        } else {
          pindexWalk := pindexWalk.pprev;
          heightWalk := heightWalk - 1;
        }
      }
      SelfInTree(pindexWalk, tree);
      StepsOnce(height, height);
      r := pindexWalk;
    }

    method BuildSkip(ghost tree: set<BlockIndex>)
      requires InTree(this, tree)
      modifies this`pskip
      ensures pprev != null ==> pskip == Ancestor(this, GetSkipHeight(nHeight))
      ensures pprev == null ==> pskip == old(pskip)
      ensures Tree(tree)
    {
      if pprev != null {
        ghost var steps;
        pskip, steps := pprev.GetAncestor(GetSkipHeight(nHeight), tree);
      }
    }
  }

  // Heights count the links down to a block without predecessor.
  ghost predicate Linked(b: BlockIndex)
    decreases b.nHeight
  {
    if b.pprev == null then b.nHeight == 0 else b.nHeight == b.pprev.nHeight + 1 && Linked(b.pprev)
  }

  // The plain walk by previous-block links.
  ghost function Ancestor(b: BlockIndex, height: nat): (r: BlockIndex)
    requires Linked(b) && height <= b.nHeight
    ensures r.nHeight == height && Linked(r)
    decreases b.nHeight
  {
    if height == b.nHeight then b else Ancestor(b.pprev, height)
  }

  lemma {:induction false} AncestorOfAncestor(b: BlockIndex, h: nat, k: nat)
    requires Linked(b) && k <= h <= b.nHeight
    ensures Ancestor(Ancestor(b, h), k) == Ancestor(b, k)
    decreases b.nHeight
  {
    if h < b.nHeight { AncestorOfAncestor(b.pprev, h, k); }
  }

  // A tree: closed under predecessors, each skip pointer unset or at its ancestor.
  ghost predicate Tree(tree: set<BlockIndex>)
    reads tree
  {
    && (forall b :: b in tree ==> Linked(b))
    && (forall b :: b in tree && b.pprev != null ==> b.pprev in tree)
    && (forall b :: b in tree && b.pskip != null ==> b.nHeight > 0 && b.pskip == Ancestor(b, GetSkipHeight(b.nHeight)))
  }

  ghost predicate AllSkip(tree: set<BlockIndex>)
    reads tree
  {
    forall b :: b in tree && b.pprev != null ==> b.pskip != null
  }

  ghost predicate InTree(b: BlockIndex, tree: set<BlockIndex>)
    reads tree
  {
    b in tree && Tree(tree)
  }

  lemma {:induction false} AncestorInTree(b: BlockIndex, h: nat, tree: set<BlockIndex>)
    requires InTree(b, tree) && h <= b.nHeight
    ensures Ancestor(b, h) in tree
    decreases b.nHeight
  {
    if h < b.nHeight { AncestorInTree(b.pprev, h, tree); }
  }

  // Both pointers of a block lead to blocks of the tree with the same ancestor.
  lemma {:induction false} Pointers(b: BlockIndex, h: nat, tree: set<BlockIndex>)
    requires InTree(b, tree) && Linked(b) && h < b.nHeight
    ensures b.pprev != null && InTree(b.pprev, tree) && Linked(b.pprev) && b.pprev.nHeight == b.nHeight - 1
    ensures Ancestor(b.pprev, h) == Ancestor(b, h)
    ensures b.pskip != null ==>
      InTree(b.pskip, tree) && Linked(b.pskip) && b.pskip.nHeight == GetSkipHeight(b.nHeight)
    ensures b.pskip != null && GetSkipHeight(b.nHeight) >= h ==> Ancestor(b.pskip, h) == Ancestor(b, h)
    ensures AllSkip(tree) ==> b.pskip != null
  {
    hide GetSkipHeight;
    var k := GetSkipHeight(b.nHeight);
    if b.pskip != null {
      AncestorInTree(b, k, tree);
      if k >= h { AncestorOfAncestor(b, k, h); }
    }
  }

  lemma {:induction false} SelfInTree(b: BlockIndex, tree: set<BlockIndex>)
    requires b in tree && Tree(tree)
    ensures Linked(b) && Ancestor(b, b.nHeight) == b
  {
  }

  // A new block on top of one of the tree, or a new root.
  method AddToBlockIndex(pprev: BlockIndex?, ghost tree: set<BlockIndex>)
    returns (pindexNew: BlockIndex, ghost grown: set<BlockIndex>)
    requires Tree(tree) && (pprev != null ==> pprev in tree)
    ensures fresh(pindexNew) && grown == tree + {pindexNew} && Tree(grown)
    ensures pindexNew.pprev == pprev && (AllSkip(tree) ==> AllSkip(grown))
  {
    pindexNew := new BlockIndex(pprev);
    grown := tree + {pindexNew};
    if pprev != null { pindexNew.BuildSkip(grown); }
  }

  /* ---- common ancestors ---- */

  // The highest block both descend from; null when there is none.
  ghost predicate IsLastCommon(a: BlockIndex, b: BlockIndex, r: BlockIndex?)
    requires Linked(a) && Linked(b)
  {
    && (r != null ==>
          r.nHeight <= a.nHeight && r.nHeight <= b.nHeight && r == Ancestor(a, r.nHeight) == Ancestor(b, r.nHeight))
    && (forall h: nat :: h <= a.nHeight && h <= b.nHeight && (r == null || h > r.nHeight) ==>
          Ancestor(a, h) != Ancestor(b, h))
  }

  method LastCommonAncestor(a: BlockIndex, b: BlockIndex, ghost tree: set<BlockIndex>) returns (r: BlockIndex?)
    requires InTree(a, tree) && InTree(b, tree)
    ensures IsLastCommon(a, b, r)
  {
    hide Linked, Ancestor, Tree;
    SelfInTree(a, tree);
    SelfInTree(b, tree);
    var pa: BlockIndex?, pb: BlockIndex? := a, b;
    ghost var steps;
    if a.nHeight > b.nHeight {
      pa, steps := a.GetAncestor(b.nHeight, tree);
    } else if b.nHeight > a.nHeight {
      pb, steps := b.GetAncestor(a.nHeight, tree);
    }
    ghost var top: int := pa.nHeight;
    while pa != pb && pa != null && pb != null
      invariant (pa == null <==> top == -1) && (pb == null <==> top == -1) && -1 <= top <= a.nHeight && top <= b.nHeight
      invariant top >= 0 ==> pa == Ancestor(a, top) && pb == Ancestor(b, top)
      invariant forall h: nat :: top < h <= a.nHeight && h <= b.nHeight ==> Ancestor(a, h) != Ancestor(b, h)
      decreases top
    {
      AncestorStep(a, top);
      AncestorStep(b, top);
      pa := pa.pprev;
      pb := pb.pprev;
      top := top - 1;
    }
    assert pa == pb;
    r := pa;
  }

  lemma {:induction false} AncestorStep(b: BlockIndex, h: nat)
    requires Linked(b) && h <= b.nHeight
    ensures h > 0 ==> Ancestor(b, h).pprev == Ancestor(b, h - 1)
    ensures h == 0 ==> Ancestor(b, h).pprev == null
  {
    if h > 0 { AncestorOfAncestor(b, h, h - 1); }
  }

  /* ---- the active chain ---- */

  lemma {:induction false} HeightInChain(chain: seq<BlockIndex?>, i: nat)
    requires i < |chain| && chain[|chain| - 1] != null && IsChainOf(chain, chain[|chain| - 1])
    ensures chain[i] != null && chain[i].nHeight == i
  {
  }

  class ActiveChain {
    var vChain: seq<BlockIndex?>

    // Every entry is the tip's ancestor at its height.
    ghost predicate Valid(tree: set<BlockIndex>)
      reads this, tree
    {
      && Tree(tree)
      && (vChain != [] ==>
            vChain[|vChain| - 1] != null && IsChainOf(vChain, vChain[|vChain| - 1]) && vChain[|vChain| - 1] in tree)
    }

    function At(nHeight: int): BlockIndex?
      reads this
    {
      if nHeight < 0 || nHeight >= |vChain| then null else vChain[nHeight]
    }

    function Tip(): BlockIndex?
      reads this
    {
      if |vChain| > 0 then vChain[|vChain| - 1] else null
    }

    predicate Contains(b: BlockIndex)
      reads this
    {
      At(b.nHeight) == b
    }

    // A block is contained exactly when the chain has it, and is then found at its height; there is
    // nothing below height zero or above the tip.
    lemma {:induction false} ContainsExactly(b: BlockIndex, tree: set<BlockIndex>)
      requires Valid(tree)
      ensures Contains(b) <==> b in vChain
      ensures forall h: int :: At(h) == null <==> h < 0 || h >= |vChain|
    {
      hide Linked, Ancestor, Tree;
      forall i | 0 <= i < |vChain| ensures vChain[i] != null && vChain[i].nHeight == i { HeightInChain(vChain, i); }
    }

    method SetTip(tip: BlockIndex?, ghost tree: set<BlockIndex>)
      requires Valid(tree) && (tip != null ==> tip in tree)
      modifies this
      ensures Valid(tree) && Tip() == tip
      ensures tip == null ==> vChain == []
      ensures tip != null ==> IsChainOf(vChain, tip)
    {
      hide Linked, Ancestor, Tree;
      if tip == null {
        vChain := [];
        return;
      }
      ghost var was := vChain;
      SelfInTree(tip, tree);
      vChain := Resized(vChain, tip.nHeight + 1);
      var pindex: BlockIndex? := tip;
      ghost var top: int := tip.nHeight;
      while pindex != null && vChain[pindex.nHeight] != pindex
        invariant |vChain| == tip.nHeight + 1 && -1 <= top <= tip.nHeight
        invariant pindex == (if top == -1 then null else Ancestor(tip, top))
        invariant forall i :: top < i <= tip.nHeight ==> vChain[i] == Ancestor(tip, i)
        invariant forall i :: 0 <= i <= top && i < |was| ==> vChain[i] == was[i]
        invariant forall i :: 0 <= i <= top && i >= |was| ==> vChain[i] == null
        decreases top
      {
        AncestorStep(tip, top);
        vChain := vChain[pindex.nHeight := pindex];
        pindex := pindex.pprev;
        top := top - 1;
      }
      if pindex != null { StopsEarly(was, tip, top); }
    }

    // Hashes from the block, by default the tip, back to its root in steps that double
    // after the first ten; a block stands for its hash.
    method GetLocator(b: BlockIndex?, ghost tree: set<BlockIndex>) returns (vHave: seq<BlockIndex>)
      requires Valid(tree) && (b != null ==> b in tree)
      ensures b == null && vChain == [] ==> vHave == []
      ensures var start := if b == null then Tip() else b;
        start != null ==> vHave == Ancestors(start, LocatorHeights(start.nHeight, 1, 0))
    {
      hide Ancestors, LocatorHeights;
      var pindex: BlockIndex? := if b == null then Tip() else b;
      if pindex == null { return []; }
      vHave := LocatorFrom(pindex, tree);
    }

    method LocatorFrom(start: BlockIndex, ghost tree: set<BlockIndex>) returns (vHave: seq<BlockIndex>)
      requires Valid(tree) && start in tree && Linked(start)
      ensures vHave == Ancestors(start, LocatorHeights(start.nHeight, 1, 0))
    {
      hide Linked, Ancestor, Tree, LocatorHeights, Ancestors, IsChainOf, OnWay;
      SelfInTree(start, tree);
      AncestorsNone(start);
      vHave := [];
      var pindex: BlockIndex := start;
      var nStep := 1;
      ghost var heights: seq<nat> := [];
      OnWayStart(start.nHeight);
      while true
        invariant pindex.nHeight <= start.nHeight && pindex == Ancestor(start, pindex.nHeight) && pindex in tree
        invariant nStep >= 1
        invariant forall i :: 0 <= i < |heights| ==> heights[i] <= start.nHeight
        invariant vHave == Ancestors(start, heights)
        invariant |vHave| == |heights| && OnWay(start.nHeight, heights, pindex.nHeight, nStep)
        decreases pindex.nHeight
      {
        AncestorsSnoc(start, heights, pindex.nHeight);
        vHave := vHave + [pindex];
        OnWayNext(start.nHeight, heights, pindex.nHeight, nStep);
        heights := heights + [pindex.nHeight];
        if pindex.nHeight == 0 { break; }
        var nHeight := if pindex.nHeight > nStep then pindex.nHeight - nStep else 0;
        pindex := StepBack(pindex, nHeight, start, tree);
        if |vHave| > 10 { nStep := nStep * 2; }
      }
    }

    method StepBack(pindex: BlockIndex, nHeight: nat, ghost start: BlockIndex, ghost tree: set<BlockIndex>)
      returns (r: BlockIndex)
      requires Valid(tree) && pindex in tree && nHeight <= pindex.nHeight
      requires Linked(start) && pindex.nHeight <= start.nHeight && pindex == Ancestor(start, pindex.nHeight)
      ensures r == Ancestor(start, nHeight) && r in tree
    {
      AncestorOfAncestor(start, pindex.nHeight, nHeight);
      AncestorInTree(pindex, nHeight, tree);
      if Contains(pindex) {
        InChain(vChain, pindex, nHeight);
        r := vChain[nHeight];
      } else {
        ghost var steps;
        r, steps := pindex.GetAncestor(nHeight, tree);
      }
    }

    // The highest ancestor of the block that is in the chain, or null.
    method FindFork(b: BlockIndex?, ghost tree: set<BlockIndex>) returns (r: BlockIndex?)
      requires Valid(tree) && (b != null ==> b in tree)
      ensures b == null ==> r == null
      ensures b != null && r != null ==> Contains(r) && r.nHeight <= b.nHeight && r == Ancestor(b, r.nHeight)
      ensures b != null ==> forall h: nat :: h <= b.nHeight && (r == null || h > r.nHeight) ==>
        !Contains(Ancestor(b, h))
    {
      hide Linked, Ancestor, Tree;
      if b == null { return null; }
      SelfInTree(b, tree);
      r := b;
      ghost var top: int := b.nHeight;
      if b.nHeight > |vChain| - 1 {
        ghost var steps;
        r, steps := b.GetAncestor(|vChain| - 1, tree);
        top := |vChain| - 1;
      }
      while r != null && !Contains(r)
        invariant -1 <= top <= b.nHeight
        invariant r == if top == -1 then null else Ancestor(b, top)
        invariant forall h: nat :: top < h <= b.nHeight ==> !Contains(Ancestor(b, h))
        decreases top
      {
        AncestorStep(b, top);
        r := r.pprev;
        top := top - 1;
      }
    }
  }

  // A block of the chain has its ancestors in the chain.
  lemma {:induction false} InChain(v: seq<BlockIndex?>, b: BlockIndex, h: nat)
    requires v != [] && v[|v| - 1] != null && IsChainOf(v, v[|v| - 1])
    requires b.nHeight < |v| && v[b.nHeight] == b && h <= b.nHeight
    ensures Linked(b) && v[h] == Ancestor(b, h)
  {
    AncestorOfAncestor(v[|v| - 1], b.nHeight, h);
  }

  // Heights of a locator: steps back from h, doubling once more than ten were taken.
  ghost function LocatorHeights(h: nat, step: nat, taken: nat): (r: seq<nat>)
    requires step >= 1
    ensures r != [] && r[0] == h && r[|r| - 1] == 0
    ensures forall i, j :: 0 <= i < j < |r| ==> r[i] > r[j]
    decreases h
  {
    if h == 0 then [0]
    else
      var next := if h > step then h - step else 0;
      [h] + LocatorHeights(next, if taken + 1 > 10 then step * 2 else step, taken + 1)
  }

  // The heights taken so far and those still to come.
  ghost predicate OnWay(start: nat, heights: seq<nat>, h: nat, step: nat) {
    step >= 1 && heights + LocatorHeights(h, step, |heights|) == LocatorHeights(start, 1, 0)
  }

  lemma {:induction false} OnWayStart(start: nat)
    ensures OnWay(start, [], start, 1)
  {
    assert [] + LocatorHeights(start, 1, 0) == LocatorHeights(start, 1, 0);
  }

  lemma {:induction false} LocatorStep(h: nat, step: nat, taken: nat)
    requires step >= 1
    ensures h == 0 ==> LocatorHeights(h, step, taken) == [0]
    ensures h > 0 ==>
      var next, pace := if h > step then h - step else 0, if taken + 1 > 10 then step * 2 else step;
      LocatorHeights(h, step, taken) == [h] + LocatorHeights(next, pace, taken + 1)
  {
  }

  lemma {:induction false} OnWayNext(start: nat, heights: seq<nat>, h: nat, step: nat)
    requires OnWay(start, heights, h, step)
    ensures h == 0 ==> heights + [h] == LocatorHeights(start, 1, 0)
    ensures h > 0 ==>
      OnWay(start, heights + [h], if h > step then h - step else 0, if |heights| + 1 > 10 then step * 2 else step)
  {
    hide LocatorHeights;
    LocatorStep(h, step, |heights|);
    if h > 0 {
      var next := if h > step then h - step else 0;
      var rest := LocatorHeights(next, if |heights| + 1 > 10 then step * 2 else step, |heights| + 1);
      assert heights + ([h] + rest) == heights + [h] + rest;
    }
  }

  ghost function Ancestors(b: BlockIndex, heights: seq<nat>): seq<BlockIndex>
    requires Linked(b) && forall i :: 0 <= i < |heights| ==> heights[i] <= b.nHeight
  {
    seq(|heights|, i requires 0 <= i < |heights| => Ancestor(b, heights[i]))
  }

  lemma {:induction false} AncestorsNone(b: BlockIndex)
    requires Linked(b)
    ensures Ancestors(b, []) == []
  {
  }

  lemma {:induction false} AncestorsSnoc(b: BlockIndex, heights: seq<nat>, h: nat)
    requires Linked(b) && (forall i :: 0 <= i < |heights| ==> heights[i] <= b.nHeight) && h <= b.nHeight
    ensures Ancestors(b, heights + [h]) == Ancestors(b, heights) + [Ancestor(b, h)]
  {
  }

  // The vector of a block's ancestors by height, the block itself last.
  ghost predicate IsChainOf(v: seq<BlockIndex?>, tip: BlockIndex) {
    Linked(tip) && |v| == tip.nHeight + 1 && forall i :: 0 <= i <= tip.nHeight ==> v[i] == Ancestor(tip, i)
  }

  function Resized(v: seq<BlockIndex?>, n: nat): (r: seq<BlockIndex?>)
    ensures |r| == n
    ensures forall i :: 0 <= i < n ==> r[i] == if i < |v| then v[i] else null
  {
    if n <= |v| then v[..n] else v + seq(n - |v|, _ => null)
  }

  // Where the old chain already holds the ancestor, it holds all lower ones.
  lemma {:induction false} StopsEarly(was: seq<BlockIndex?>, tip: BlockIndex, h: nat)
    requires was != [] && was[|was| - 1] != null && IsChainOf(was, was[|was| - 1])
    requires Linked(tip) && h <= tip.nHeight && h < |was| && was[h] == Ancestor(tip, h)
    ensures forall i :: 0 <= i <= h ==> was[i] == Ancestor(tip, i)
  {
    var old_ := was[|was| - 1];
    forall i | 0 <= i <= h ensures was[i] == Ancestor(tip, i) {
      AncestorOfAncestor(tip, h, i);
      AncestorOfAncestor(old_, h, i);
    }
  }
}
