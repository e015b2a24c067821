/** The bandwidth tree of bandwidth.c, for one direction: allowances handed out from the top,
    requests clamped and bytes charged up the parent chain.  Nodes are numbered. */
module BandwidthTrees {
  import opened RateWindows

  const NO_PARENT := -1

  /** The fixed part of struct tr_bandwidth and of its band.  `desiredDown` is the desired
      speed of the download band, which the clamp reads in both directions. */
  datatype Node = Node(parent: int, children: seq<nat>, isLimited: bool, honorParentLimits: bool, desired: nat, desiredDown: nat)

  ghost predicate IsTree(nodes: seq<Node>, depth: seq<nat>)
  {
    && |depth| == |nodes|
    && (forall b | 0 <= b < |nodes| :: nodes[b].parent == NO_PARENT || (0 <= nodes[b].parent < |nodes| && depth[b] == depth[nodes[b].parent] + 1))
    && (forall b: nat, c: nat {:trigger c in nodes[b].children} | b < |nodes| && c in nodes[b].children :: c < |nodes| && nodes[c].parent == b)
    && (forall c | 0 <= c < |nodes| && nodes[c].parent != NO_PARENT :: c in nodes[nodes[c].parent].children)
  }

  /** a is b or one of its ancestors. */
  ghost predicate Above(nodes: seq<Node>, depth: seq<nat>, a: nat, b: nat)
    requires IsTree(nodes, depth) && b < |nodes|
    decreases depth[b]
  {
    a == b || (nodes[b].parent != NO_PARENT && Above(nodes, depth, a, nodes[b].parent))
  }

  /** ... and each node on the way up honours its parent's limits. */
  ghost predicate Honoured(nodes: seq<Node>, depth: seq<nat>, a: nat, b: nat)
    requires IsTree(nodes, depth) && b < |nodes|
    decreases depth[b]
  {
    a == b || (nodes[b].parent != NO_PARENT && nodes[b].honorParentLimits && Honoured(nodes, depth, a, nodes[b].parent))
  }

  function Min(a: nat, b: nat): nat
  {
    if a < b then a else b
  }

  /** Clamping down harder close to the speed limit; the 0.8 and 0.9 in exact arithmetic. */
  function Squeeze(bytes: nat, current: nat, desired: nat): nat
  {
    if desired == 0 then bytes
    else if current > desired then 0
    else if current * 10 > desired * 9 then bytes * 8 / 10
    else if current * 10 > desired * 8 then bytes * 9 / 10
    else bytes
  }

  /** bandwidthClamp.  `speeds` is the current raw download speed of each node. */
  function Clamp(nodes: seq<Node>, ghost depth: seq<nat>, left: seq<nat>, speeds: seq<nat>, b: nat, bytes: nat): nat
    requires IsTree(nodes, depth) && b < |nodes| == |left| == |speeds|
    decreases depth[b]
  {
    var here := if nodes[b].isLimited then Squeeze(Min(bytes, left[b]), speeds[b], nodes[b].desiredDown) else bytes;
    if nodes[b].parent != NO_PARENT && nodes[b].honorParentLimits && here > 0 then
      Clamp(nodes, depth, left, speeds, nodes[b].parent, here)
    else
      here
  }

  /** No more than was asked for, and than any limited node whose limits are honoured has left. */
  lemma {:induction false} ClampFits(nodes: seq<Node>, depth: seq<nat>, left: seq<nat>, speeds: seq<nat>, b: nat, bytes: nat)
    requires IsTree(nodes, depth) && b < |nodes| == |left| == |speeds|
    ensures Clamp(nodes, depth, left, speeds, b, bytes) <= bytes
    ensures forall a: nat | a < |nodes| && nodes[a].isLimited && Honoured(nodes, depth, a, b) ::
      Clamp(nodes, depth, left, speeds, b, bytes) <= left[a]
    decreases depth[b]
  {
    hide IsTree;
    TreeParents(nodes, depth, b);
    var here := if nodes[b].isLimited then Squeeze(Min(bytes, left[b]), speeds[b], nodes[b].desiredDown) else bytes;
    SqueezeShrinks(Min(bytes, left[b]), speeds[b], nodes[b].desiredDown);
    if nodes[b].parent != NO_PARENT && nodes[b].honorParentLimits && here > 0 {
      ClampFits(nodes, depth, left, speeds, nodes[b].parent, here);
    }
  }

  /** What a limited node lets through of m bytes: all up to 0.8 of its desired speed, a tenth less
      above that, two tenths less above 0.9, and nothing above the desired speed. */
  predicate IsSqueezed(bytes: nat, m: nat, current: nat, desired: nat)
  {
    if desired == 0 || 10 * current <= 8 * desired then bytes == m
    else if 10 * current <= 9 * desired then 10 * bytes <= 9 * m < 10 * (bytes + 1)
    else if current <= desired then 10 * bytes <= 8 * m < 10 * (bytes + 1)
    else bytes == 0
  }

  lemma SqueezeExactly(bytes: nat, m: nat, current: nat, desired: nat)
    ensures Squeeze(m, current, desired) == bytes <==> IsSqueezed(bytes, m, current, desired)
  {
  }

  /** The clamp is that, at the node and then at each it honours. */
  lemma ClampExactly(nodes: seq<Node>, depth: seq<nat>, left: seq<nat>, speeds: seq<nat>, b: nat, bytes: nat) returns (here: nat)
    requires IsTree(nodes, depth) && b < |nodes| == |left| == |speeds|
    ensures !nodes[b].isLimited ==> here == bytes
    ensures nodes[b].isLimited ==>
      IsSqueezed(here, if bytes <= left[b] then bytes else left[b], speeds[b], nodes[b].desiredDown)
    ensures nodes[b].parent == NO_PARENT || 0 <= nodes[b].parent < |nodes|
    ensures Clamp(nodes, depth, left, speeds, b, bytes) ==
      if nodes[b].parent != NO_PARENT && nodes[b].honorParentLimits then Clamp(nodes, depth, left, speeds, nodes[b].parent, here)
      else here
  {
    hide IsTree, Squeeze, IsSqueezed;
    TreeParents(nodes, depth, b);
    here := if nodes[b].isLimited then Squeeze(Min(bytes, left[b]), speeds[b], nodes[b].desiredDown) else bytes;
    SqueezeExactly(here, Min(bytes, left[b]), speeds[b], nodes[b].desiredDown);
    if nodes[b].parent != NO_PARENT {
      ClampFits(nodes, depth, left, speeds, nodes[b].parent, here);
    }
  }

  lemma TreeParents(nodes: seq<Node>, depth: seq<nat>, b: nat)
    requires IsTree(nodes, depth) && b < |nodes|
    ensures |depth| == |nodes|
    ensures nodes[b].parent == NO_PARENT || (0 <= nodes[b].parent < |nodes| && depth[b] == depth[nodes[b].parent] + 1)
  {
  }

  lemma SqueezeShrinks(bytes: nat, current: nat, desired: nat)
    ensures Squeeze(bytes, current, desired) <= bytes
    ensures current * 10 <= desired * 8 ==> Squeeze(bytes, current, desired) == bytes
  {
  }

  /** Nothing on the way up runs at more than 0.8 of its desired speed. */
  ghost predicate Unhurried(nodes: seq<Node>, depth: seq<nat>, speeds: seq<nat>, b: nat)
    requires IsTree(nodes, depth) && b < |nodes| == |speeds|
  {
    forall a: nat | a < |nodes| && Honoured(nodes, depth, a, b) :: speeds[a] * 10 <= nodes[a].desiredDown * 8
  }

  /** Well below the speed limits the clamp gives all that fits. */
  lemma {:induction false} ClampGivesAll(nodes: seq<Node>, depth: seq<nat>, left: seq<nat>, speeds: seq<nat>, b: nat, bytes: nat, x: nat)
    requires IsTree(nodes, depth) && b < |nodes| == |left| == |speeds| && Unhurried(nodes, depth, speeds, b)
    requires x <= bytes && forall a: nat | a < |nodes| && nodes[a].isLimited && Honoured(nodes, depth, a, b) :: x <= left[a]
    ensures x <= Clamp(nodes, depth, left, speeds, b, bytes)
    decreases depth[b]
  {
    hide IsTree, Squeeze;
    TreeParents(nodes, depth, b);
    var here := if nodes[b].isLimited then Squeeze(Min(bytes, left[b]), speeds[b], nodes[b].desiredDown) else bytes;
    SqueezeShrinks(Min(bytes, left[b]), speeds[b], nodes[b].desiredDown);
    assert Honoured(nodes, depth, b, b);
    if nodes[b].parent != NO_PARENT && nodes[b].honorParentLimits && here > 0 {
      ClampGivesAll(nodes, depth, left, speeds, nodes[b].parent, here, x);
    }
  }

  /** Above its desired download speed a limited node, and any node that honours it, gets nothing. */
  lemma {:induction false} ClampStops(nodes: seq<Node>, depth: seq<nat>, left: seq<nat>, speeds: seq<nat>, a: nat, b: nat, bytes: nat)
    requires IsTree(nodes, depth) && a < |nodes| && b < |nodes| == |left| == |speeds| && Honoured(nodes, depth, a, b)
    requires nodes[a].isLimited && 0 < nodes[a].desiredDown < speeds[a]
    ensures Clamp(nodes, depth, left, speeds, b, bytes) == 0
    decreases depth[b]
  {
    hide IsTree;
    TreeParents(nodes, depth, b);
    var here := if nodes[b].isLimited then Squeeze(Min(bytes, left[b]), speeds[b], nodes[b].desiredDown) else bytes;
    if a == b {
      assert here == 0;
    } else if here > 0 {
      ClampStops(nodes, depth, left, speeds, a, nodes[b].parent, here);
    }
  }

  /** A node that does not honour its parent's limits is allowed more than its parent has left. */
  lemma DishonouredLimitIsIgnored()
    ensures var nodes, depth := [Node(NO_PARENT, [1], true, true, 0, 0), Node(0, [], false, false, 0, 0)], [0, 1];
      IsTree(nodes, depth) && Above(nodes, depth, 0, 1) && Clamp(nodes, depth, [0, 0], [0, 0], 1, 100) == 100
  {
    var nodes, depth := [Node(NO_PARENT, [1], true, true, 0, 0), Node(0, [], false, false, 0, 0)], [0, 1];
    assert IsTree(nodes, depth);
    assert Above(nodes, depth, 0, 0);
  }

  /** Every node below a honours its parent's limits all the way up to a. */
  ghost predicate HonouredFromBelow(nodes: seq<Node>, depth: seq<nat>, a: nat)
    requires IsTree(nodes, depth)
  {
    forall b: nat | b < |nodes| && Above(nodes, depth, a, b) :: Honoured(nodes, depth, a, b)
  }

  ghost predicate AllHonour(nodes: seq<Node>)
  {
    forall b | 0 <= b < |nodes| :: nodes[b].honorParentLimits
  }

  lemma {:induction false} HonouredIsAbove(nodes: seq<Node>, depth: seq<nat>, a: nat, b: nat)
    requires IsTree(nodes, depth) && b < |nodes| && AllHonour(nodes)
    ensures Honoured(nodes, depth, a, b) <==> Above(nodes, depth, a, b)
    decreases depth[b]
  {
    hide IsTree;
    TreeParents(nodes, depth, b);
    if nodes[b].parent != NO_PARENT {
      HonouredIsAbove(nodes, depth, a, nodes[b].parent);
    }
  }

  /** When all nodes honour their parents, all are honoured from below. */
  lemma AllAreHonoured(nodes: seq<Node>, depth: seq<nat>, a: nat)
    requires IsTree(nodes, depth) && AllHonour(nodes)
    ensures HonouredFromBelow(nodes, depth, a)
  {
    hide IsTree, Above, Honoured, AllHonour;
    forall b: nat | b < |nodes| && Above(nodes, depth, a, b)
      ensures Honoured(nodes, depth, a, b)
    {
      HonouredIsAbove(nodes, depth, a, b);
    }
  }

  /** Some limited node whose limits b honours has no more left than a. */
  ghost predicate Guarded(nodes: seq<Node>, depth: seq<nat>, left: seq<nat>, a: nat, b: nat)
    requires IsTree(nodes, depth) && a < |nodes| && b < |nodes| == |left|
  {
    exists c: nat :: c < |nodes| && nodes[c].isLimited && Honoured(nodes, depth, c, b) && left[c] <= left[a]
  }

  /** No transfer at b, whatever is wanted and whatever the speeds, exceeds what a has left. */
  ghost predicate NeverOver(nodes: seq<Node>, depth: seq<nat>, left: seq<nat>, a: nat, b: nat)
    requires IsTree(nodes, depth) && a < |nodes| && b < |nodes| == |left|
  {
    forall speeds: seq<nat>, want: nat | |speeds| == |nodes| :: Clamp(nodes, depth, left, speeds, b, want) <= left[a]
  }

  /** The clamp protects a from b exactly when b is guarded. */
  lemma GuardIsExact(nodes: seq<Node>, depth: seq<nat>, left: seq<nat>, a: nat, b: nat)
    requires IsTree(nodes, depth) && a < |nodes| && b < |nodes| == |left|
    ensures NeverOver(nodes, depth, left, a, b) <==> Guarded(nodes, depth, left, a, b)
  {
    hide IsTree, Clamp, Honoured;
    if Guarded(nodes, depth, left, a, b) {
      forall speeds: seq<nat>, want: nat | |speeds| == |nodes|
        ensures Clamp(nodes, depth, left, speeds, b, want) <= left[a]
      {
        ClampFits(nodes, depth, left, speeds, b, want);
      }
    } else {
      var speeds: seq<nat> := seq(|nodes|, _ => 0);
      ClampGivesAll(nodes, depth, left, speeds, b, left[a] + 1, left[a] + 1);
    }
  }

  /** The same tree with other nodes limited. */
  function Relimited(nodes: seq<Node>, limited: seq<bool>): (r: seq<Node>)
    requires |limited| == |nodes|
    ensures |r| == |nodes|
  {
    seq(|nodes|, i requires 0 <= i < |nodes| => nodes[i].(isLimited := limited[i]))
  }

  lemma RelimitedIsTree(nodes: seq<Node>, depth: seq<nat>, limited: seq<bool>)
    requires IsTree(nodes, depth) && |limited| == |nodes|
    ensures IsTree(Relimited(nodes, limited), depth)
  {
  }

  lemma {:induction false} RelimitedLinks(nodes: seq<Node>, depth: seq<nat>, limited: seq<bool>, a: nat, b: nat)
    requires IsTree(nodes, depth) && |limited| == |nodes| && IsTree(Relimited(nodes, limited), depth) && b < |nodes|
    ensures Honoured(Relimited(nodes, limited), depth, a, b) <==> Honoured(nodes, depth, a, b)
    decreases depth[b]
  {
    hide IsTree;
    TreeParents(nodes, depth, b);
    if nodes[b].parent != NO_PARENT {
      RelimitedLinks(nodes, depth, limited, a, nodes[b].parent);
    }
  }

  /** With these nodes limited and this much left, no transfer at b exceeds what a has left. */
  ghost predicate KeptUnder(nodes: seq<Node>, depth: seq<nat>, limited: seq<bool>, left: seq<nat>, a: nat, b: nat)
    requires IsTree(nodes, depth) && a < |nodes| && b < |nodes| == |left| == |limited|
  {
    IsTree(Relimited(nodes, limited), depth) && NeverOver(Relimited(nodes, limited), depth, left, a, b)
  }

  /** Whatever nodes besides a are limited, and whatever each has left, no transfer below a
      exceeds what a has left. */
  ghost predicate AlwaysKept(nodes: seq<Node>, depth: seq<nat>, a: nat)
    requires IsTree(nodes, depth) && a < |nodes|
  {
    forall limited: seq<bool>, left: seq<nat>, b: nat |
      |limited| == |left| == |nodes| && limited[a] && b < |nodes| && Above(nodes, depth, a, b) ::
      KeptUnder(nodes, depth, limited, left, a, b)
  }

  /** So a budget is safe under all limits exactly when it is honoured from below. */
  lemma HonourIsExact(nodes: seq<Node>, depth: seq<nat>, a: nat)
    requires IsTree(nodes, depth) && a < |nodes|
    ensures AlwaysKept(nodes, depth, a) <==> HonouredFromBelow(nodes, depth, a)
  {
    hide IsTree, NeverOver, Honoured, Above;
    if HonouredFromBelow(nodes, depth, a) {
      forall limited: seq<bool>, left: seq<nat>, b: nat |
        |limited| == |left| == |nodes| && limited[a] && b < |nodes| && Above(nodes, depth, a, b)
        ensures KeptUnder(nodes, depth, limited, left, a, b)
      {
        RelimitedIsTree(nodes, depth, limited);
        RelimitedLinks(nodes, depth, limited, a, b);
        HonouredIsGuarded(Relimited(nodes, limited), depth, left, a, b);
        GuardIsExact(Relimited(nodes, limited), depth, left, a, b);
      }
    } else {
      var b: nat :| b < |nodes| && Above(nodes, depth, a, b) && !Honoured(nodes, depth, a, b);
      var limited, left: seq<nat> := seq(|nodes|, i => i == a), seq(|nodes|, _ => 0);
      var only := Relimited(nodes, limited);
      RelimitedIsTree(nodes, depth, limited);
      forall c: nat | c < |nodes| && only[c].isLimited
        ensures !Honoured(only, depth, c, b)
      {
        RelimitedLinks(nodes, depth, limited, c, b);
      }
      GuardIsExact(only, depth, left, a, b);
      assert !KeptUnder(nodes, depth, limited, left, a, b);
    }
  }

  /** A limited node guards all that honours it. */
  lemma HonouredIsGuarded(nodes: seq<Node>, depth: seq<nat>, left: seq<nat>, a: nat, b: nat)
    requires IsTree(nodes, depth) && a < |nodes| && b < |nodes| == |left| && nodes[a].isLimited && Honoured(nodes, depth, a, b)
    ensures Guarded(nodes, depth, left, a, b)
  {
  }

  /** Nothing that b honours is limited: then b is never guarded, and may use anything. */
  ghost predicate Unlimited(nodes: seq<Node>, depth: seq<nat>, b: nat)
    requires IsTree(nodes, depth) && b < |nodes|
  {
    forall c: nat | c < |nodes| && Honoured(nodes, depth, c, b) :: !nodes[c].isLimited
  }

  /** What is below b is b itself or below one of its children. */
  lemma {:induction false} BelowChildren(nodes: seq<Node>, depth: seq<nat>, b: nat, x: nat)
    requires IsTree(nodes, depth) && b < |nodes| && x < |nodes|
    ensures forall c | c in nodes[b].children :: c < |nodes|
    ensures Above(nodes, depth, b, x) <==> x == b || exists c :: c in nodes[b].children && Above(nodes, depth, c, x)
    decreases depth[x]
  {
    TreeParents(nodes, depth, x);
    if nodes[x].parent != NO_PARENT {
      BelowChildren(nodes, depth, b, nodes[x].parent);
      assert nodes[x].parent == b ==> x in nodes[b].children && Above(nodes, depth, x, x);
    }
    forall c | c in nodes[b].children && Above(nodes, depth, c, x)
      ensures Above(nodes, depth, b, x)
    {
      AboveSteps(nodes, depth, b, c, x);
    }
  }

  lemma {:induction false} AboveSteps(nodes: seq<Node>, depth: seq<nat>, b: nat, c: nat, x: nat)
    requires IsTree(nodes, depth) && b < |nodes| && c < |nodes| && x < |nodes| && nodes[c].parent == b
    ensures Above(nodes, depth, c, x) ==> Above(nodes, depth, b, x)
    decreases depth[x]
  {
    TreeParents(nodes, depth, x);
    if Above(nodes, depth, c, x) && c != x {
      AboveSteps(nodes, depth, b, c, nodes[x].parent);
    }
  }

  lemma AboveUnfolds(nodes: seq<Node>, depth: seq<nat>, b: nat)
    requires IsTree(nodes, depth) && b < |nodes|
    ensures nodes[b].parent == NO_PARENT || 0 <= nodes[b].parent < |nodes|
    ensures forall a: nat :: Above(nodes, depth, a, b) <==> a == b || (nodes[b].parent != NO_PARENT && Above(nodes, depth, a, nodes[b].parent))
    ensures nodes[b].parent != NO_PARENT ==> !Above(nodes, depth, b, nodes[b].parent)
  {
    TreeParents(nodes, depth, b);
    if nodes[b].parent != NO_PARENT {
      NotOwnAncestor(nodes, depth, b);
    }
  }

  /** Bytes in a log of transfers. */
  function Total(log: seq<Use>): nat
  {
    if log == [] then 0 else Total(log[..|log| - 1]) + log[|log| - 1].size
  }

  /** `(uint64_t) desiredSpeed_Bps * period_msec / 1000u`, kept in 32 bits */
  function Allowance(desired: nat, period: nat): nat
  {
    (desired * period / 1000) % U32
  }

  /** These are the whole bytes that `desired` bytes a second come to in `period` milliseconds, as
      long as 32 bits hold them; they are never more. */
  predicate IsShare(bytes: nat, desired: nat, period: nat)
  {
    1000 * bytes <= desired * period && (desired * period < 1000 * 0x1_0000_0000 ==> desired * period < 1000 * (bytes + 1))
  }

  lemma ShareOf(x: nat, whole: nat, over: nat, rest: nat)
    requires 1000 * whole <= x < 1000 * whole + 1000 && whole == over * U32 + rest
    ensures 1000 * rest <= x && (x < 1000 * U32 ==> x < 1000 * (rest + 1))
  {
  }

  lemma ShareHolds(bytes: nat, desired: nat, period: nat)
    requires IsShare(bytes, desired, period)
    ensures 1000 * bytes <= desired * period
  {
  }

  lemma AllowanceIsShare(desired: nat, period: nat)
    ensures IsShare(Allowance(desired, period), desired, period)
  {
    var x := desired * period;
    assert x / 1000 == x / 1000 / U32 * U32 + x / 1000 % U32;
    ShareOf(x, x / 1000, x / 1000 / U32, Allowance(desired, period));
  }

  /** A node's budget: what is left of it, what it was, and when it was given. */
  datatype Budget = Budget(left: nat, allowance: nat, mark: nat)

  function Renewed(node: Node, was: Budget, period: nat, now: nat): Budget
  {
    Budget(if node.isLimited then Allowance(node.desired, period) else was.left, Allowance(node.desired, period), now)
  }

  /** x is b itself or below one of these nodes. */
  ghost predicate Reached(nodes: seq<Node>, depth: seq<nat>, b: nat, children: seq<nat>, x: nat)
    requires IsTree(nodes, depth) && x < |nodes|
  {
    x == b || exists c :: c in children && Above(nodes, depth, c, x)
  }

  lemma ReachOneMore(nodes: seq<Node>, depth: seq<nat>, b: nat, children: seq<nat>, i: nat)
    requires IsTree(nodes, depth) && i < |children|
    ensures forall x: nat | x < |nodes| ::
      Reached(nodes, depth, b, children[..i + 1], x) <==> Reached(nodes, depth, b, children[..i], x) || Above(nodes, depth, children[i], x)
  {
    assert children[..i + 1] == children[..i] + [children[i]];
  }

  datatype Op =
    | Pulse(period: nat)
    | Transfer(leaf: nat, want: nat, take: nat, isPieceData: bool, now: nat, speeds: seq<nat>)

  /** The state that changes: bytesLeft, and what each node's two rate windows were given. */
  class BandwidthTree {
    const nodes: seq<Node>
    ghost const depth: seq<nat>
    ghost const height: nat
    const root: nat
    var bytesLeft: seq<nat>
    var raw: seq<seq<Use>>
    var piece: seq<seq<Use>>
    /** for each node, the allowance of its last allocation and the length of its piece log then */
    ghost var allowance: seq<nat>
    ghost var mark: seq<nat>

    ghost predicate Valid()
      reads this`bytesLeft, this`raw, this`piece, this`allowance, this`mark
    {
      && IsTree(nodes, depth) && root < |nodes|
      && (forall b | 0 <= b < |nodes| :: depth[b] <= height)
      && |bytesLeft| == |raw| == |piece| == |allowance| == |mark| == |nodes|
      && (forall b | 0 <= b < |nodes| :: mark[b] <= |piece[b]|)
    }

    /** Piece bytes charged to a node since its last allocation. */
    ghost function Charged(b: nat): nat
      requires Valid() && b < |nodes|
      reads this`bytesLeft, this`raw, this`piece, this`allowance, this`mark
    {
      Total(piece[b][mark[b]..])
    }

    /** What a node has left is its allowance less what it was charged. */
    ghost predicate AccountedAt(a: nat)
      requires Valid() && a < |nodes|
      reads this`bytesLeft, this`raw, this`piece, this`allowance, this`mark
    {
      bytesLeft[a] + Charged(a) == allowance[a]
    }

    /** ... at each limited node. */
    ghost predicate Accounted()
      requires Valid()
      reads this`bytesLeft, this`raw, this`piece, this`allowance, this`mark
    {
      forall b: nat | b < |nodes| && nodes[b].isLimited :: AccountedAt(b)
    }

    /** Where every node below honours its parent, up to here. */
    ghost predicate IsHonoured(a: nat)
      requires IsTree(nodes, depth)
    {
      HonouredFromBelow(nodes, depth, a)
    }

    ghost predicate IsAbove(a: nat, b: nat)
      requires IsTree(nodes, depth) && b < |nodes|
    {
      Above(nodes, depth, a, b)
    }

    constructor (nodes: seq<Node>, ghost depth: seq<nat>, ghost height: nat, root: nat)
      requires IsTree(nodes, depth) && root < |nodes| && forall b | 0 <= b < |nodes| :: depth[b] <= height
      ensures Valid() && Accounted() && this.nodes == nodes && this.depth == depth && this.root == root
    {
      this.nodes, this.depth, this.height, this.root := nodes, depth, height, root;
      bytesLeft := seq(|nodes|, _ => 0);
      raw := seq(|nodes|, _ => []);
      piece := seq(|nodes|, _ => []);
      allowance := seq(|nodes|, _ => 0);
      mark := seq(|nodes|, _ => 0);
    }

    /** What a node pays of its budget when `size` bytes are used at b. */
    ghost function Taken(a: nat, b: nat, isPieceData: bool, left: nat, size: nat): (paid: nat)
      requires IsTree(nodes, depth) && a < |nodes| && b < |nodes|
      ensures paid <= left
    {
      if IsAbove(a, b) && nodes[a].isLimited && isPieceData then Min(left, size) else 0
    }

    /** tr_bandwidthUsed */
    method Used(b: nat, size: nat, isPieceData: bool, now: nat)
      requires Valid() && b < |nodes|
      modifies this`bytesLeft, this`raw, this`piece
      ensures Valid()
      ensures forall a: nat | a < |nodes| :: bytesLeft[a] == old(bytesLeft[a]) - Taken(a, b, isPieceData, old(bytesLeft[a]), size)
      ensures forall a: nat | a < |nodes| :: raw[a] == old(raw[a]) + (if IsAbove(a, b) then [Use(now, size)] else [])
      ensures forall a: nat | a < |nodes| :: piece[a] == old(piece[a]) + (if IsAbove(a, b) && isPieceData then [Use(now, size)] else [])
      decreases depth[b]
    {
      hide IsTree, Above;
      TreeParents(nodes, depth, b);
      AboveUnfolds(nodes, depth, b);
      if nodes[b].isLimited && isPieceData {
        bytesLeft := bytesLeft[b := bytesLeft[b] - Min(bytesLeft[b], size)];
      }
      raw := raw[b := raw[b] + [Use(now, size)]];
      if isPieceData {
        piece := piece[b := piece[b] + [Use(now, size)]];
      }
      if nodes[b].parent != NO_PARENT {
        Used(nodes[b].parent, size, isPieceData, now);
      }
    }

    ghost function BudgetOf(x: nat): Budget
      requires Valid() && x < |nodes|
      reads this`bytesLeft, this`raw, this`piece, this`allowance, this`mark
    {
      Budget(bytesLeft[x], allowance[x], mark[x])
    }

    /** allocateBandwidth: b and all below it get a new allowance, if they are limited. */
    method AllocateFrom(b: nat, period: nat)
      requires Valid() && b < |nodes|
      modifies this`bytesLeft, this`allowance, this`mark
      ensures Valid()
      ensures forall x: nat | x < |nodes| ::
        BudgetOf(x) == if IsAbove(b, x) then Renewed(nodes[x], old(BudgetOf(x)), period, |piece[x]|) else old(BudgetOf(x))
      ensures forall x: nat | x < |nodes| && IsAbove(b, x) && nodes[x].isLimited :: IsShare(bytesLeft[x], nodes[x].desired, period)
      decreases height - depth[b]
    {
      hide IsTree, Above, Allowance, Reached, IsShare;
      allowance := allowance[b := Allowance(nodes[b].desired, period)];
      mark := mark[b := |piece[b]|];
      if nodes[b].isLimited {
        bytesLeft := bytesLeft[b := Allowance(nodes[b].desired, period)];
      }
      ReachNone(nodes, depth, b);
      for i := 0 to |nodes[b].children|
        invariant Valid()
        invariant forall x: nat | x < |nodes| && Reached(nodes, depth, b, nodes[b].children[..i], x) ::
          BudgetOf(x) == Renewed(nodes[x], old(BudgetOf(x)), period, |piece[x]|)
        invariant forall x: nat | x < |nodes| && !Reached(nodes, depth, b, nodes[b].children[..i], x) :: BudgetOf(x) == old(BudgetOf(x))
      {
        ChildIsBelow(nodes, depth, b, nodes[b].children[i]);
        ReachOneMore(nodes, depth, b, nodes[b].children, i);
        AllocateFrom(nodes[b].children[i], period);
      }
      ReachAll(nodes, depth, b);
      forall x: nat | x < |nodes| && IsAbove(b, x) && nodes[x].isLimited
        ensures IsShare(bytesLeft[x], nodes[x].desired, period)
      {
        AllowanceIsShare(nodes[x].desired, period);
        assert BudgetOf(x).left == bytesLeft[x];
      }
    }

    /** tr_bandwidthAllocate, as far as the budgets go. */
    method Allocate(period: nat)
      requires Valid()
      modifies this`bytesLeft, this`allowance, this`mark
      ensures Valid()
      ensures forall x: nat | x < |nodes| && nodes[x].isLimited && old(AccountedAt(x)) :: AccountedAt(x)
      ensures forall x: nat | x < |nodes| && IsAbove(root, x) ::
        allowance[x] == Allowance(nodes[x].desired, period) && Charged(x) == 0 && (nodes[x].isLimited ==> bytesLeft[x] == allowance[x])
      ensures forall x: nat | x < |nodes| && IsAbove(root, x) && nodes[x].isLimited :: IsShare(bytesLeft[x], nodes[x].desired, period)
    {
      hide IsTree, Above, Allowance, IsShare;
      ghost var before := seq(|nodes|, x requires 0 <= x < |nodes| && Valid() reads this => BudgetOf(x));
      AllocateFrom(root, period);
      forall x: nat | x < |nodes|
        ensures IsAbove(root, x) ==> BudgetOf(x) == Renewed(nodes[x], before[x], period, |piece[x]|) && Charged(x) == 0
        ensures !IsAbove(root, x) ==> BudgetOf(x) == before[x] && Charged(x) == old(Charged(x))
      {
        NothingTotal(piece[x]);
      }
    }

    /** One transfer as peer-io.c makes it: at most what tr_bandwidthClamp just allowed is
        moved, and charged with tr_bandwidthUsed.  A budget stays exact if and only if the
        transfer is not of more piece data than it had left. */
    method MoveBytes(leaf: nat, want: nat, take: nat, isPieceData: bool, now: nat, speeds: seq<nat>) returns (size: nat)
      requires Valid() && leaf < |nodes| == |speeds|
      modifies this`bytesLeft, this`raw, this`piece
      ensures Valid() && size == Min(take, Clamp(nodes, depth, old(bytesLeft), speeds, leaf, want))
      ensures forall a: nat | a < |nodes| :: raw[a] == old(raw[a]) + (if IsAbove(a, leaf) then [Use(now, size)] else [])
      ensures forall a: nat | a < |nodes| :: Charged(a) == old(Charged(a)) + (if IsAbove(a, leaf) && isPieceData then size else 0)
      ensures forall a: nat | a < |nodes| && nodes[a].isLimited && old(AccountedAt(a)) ::
        AccountedAt(a) <==> !(IsAbove(a, leaf) && isPieceData && old(bytesLeft[a]) < size)
      ensures forall a: nat | a < |nodes| && nodes[a].isLimited && IsHonoured(a) && old(AccountedAt(a)) :: AccountedAt(a)
    {
      hide IsTree, Above, Clamp, Honoured, HonouredFromBelow;
      ClampFits(nodes, depth, bytesLeft, speeds, leaf, want);
      size := Min(take, Clamp(nodes, depth, bytesLeft, speeds, leaf, want));
      ghost var left := bytesLeft;
      Used(leaf, size, isPieceData, now);
      forall a: nat | a < |nodes|
        ensures Charged(a) == old(Charged(a)) + (if IsAbove(a, leaf) && isPieceData then size else 0)
        ensures IsHonoured(a) && nodes[a].isLimited && IsAbove(a, leaf) ==> size <= left[a]
      {
        TotalMore(old(piece[a]), mark[a], Use(now, size));
        HonouredAt(nodes, depth, a, leaf);
      }
    }

    /** Over any run, a limited node honoured from below is charged no more piece bytes than its
        last allowance, and has exactly the rest left, whatever other nodes do. */
    method PerformAll(ops: seq<Op>)
      requires Valid() && Accounted()
      requires forall op | op in ops && op.Transfer? :: op.leaf < |nodes| == |op.speeds|
      modifies this`bytesLeft, this`raw, this`piece, this`allowance, this`mark
      ensures Valid()
      ensures forall x: nat | x < |nodes| && nodes[x].isLimited && IsHonoured(x) ::
        Charged(x) <= allowance[x] && bytesLeft[x] == allowance[x] - Charged(x)
      ensures forall x: nat, period: nat | x < |nodes| && IsAbove(root, x) && LastPulse(ops) == period ::
        allowance[x] == Allowance(nodes[x].desired, period)
      ensures forall x: nat | x < |nodes| && nodes[x].isLimited && IsHonoured(x) && IsAbove(root, x) && 0 <= LastPulse(ops) ::
        && 1000 * Charged(x) <= nodes[x].desired * LastPulse(ops)
        && IsShare(bytesLeft[x] + Charged(x), nodes[x].desired, LastPulse(ops))
    {
      hide IsTree, Above, Clamp, HonouredFromBelow, Allowance, IsShare;
      for i := 0 to |ops|
        invariant Valid()
        invariant forall x: nat | x < |nodes| && nodes[x].isLimited && IsHonoured(x) :: AccountedAt(x)
        invariant forall x: nat, period: nat | x < |nodes| && IsAbove(root, x) && LastPulse(ops[..i]) == period ::
          allowance[x] == Allowance(nodes[x].desired, period)
      {
        assert ops[..i + 1][..i] == ops[..i];
        match ops[i]
        case Pulse(period) =>
          Allocate(period);
        case Transfer(leaf, want, take, isPieceData, now, speeds) =>
          var size := MoveBytes(leaf, want, take, isPieceData, now, speeds);
      }
      assert ops[..|ops|] == ops;
      forall x: nat | x < |nodes| && nodes[x].isLimited && IsHonoured(x) && IsAbove(root, x) && 0 <= LastPulse(ops)
        ensures 1000 * Charged(x) <= nodes[x].desired * LastPulse(ops)
        ensures IsShare(bytesLeft[x] + Charged(x), nodes[x].desired, LastPulse(ops))
      {
        var period: nat := LastPulse(ops);
        AllowanceIsShare(nodes[x].desired, period);
        assert AccountedAt(x);
        ShareHolds(bytesLeft[x] + Charged(x), nodes[x].desired, period);
      }
    }

    /** Without that, the budget does not hold: a node below a that honours nothing limited can
        use one byte more than a has left, and a is then charged more than its allowance. */
    method Overcharge(a: nat, b: nat, now: nat)
      requires Valid() && a < |nodes| && b < |nodes| && nodes[a].isLimited && IsAbove(a, b) && Unlimited(nodes, depth, b)
      requires AccountedAt(a)
      modifies this`bytesLeft, this`raw, this`piece
      ensures Valid() && Charged(a) == allowance[a] + 1 && !AccountedAt(a)
    {
      hide IsTree, Above, Clamp, Honoured, HonouredFromBelow;
      var want, speeds := bytesLeft[a] + 1, seq(|nodes|, _ => 0);
      ClampFits(nodes, depth, bytesLeft, speeds, b, want);
      ClampGivesAll(nodes, depth, bytesLeft, speeds, b, want, want);
      var size := MoveBytes(b, want, want, true, now, speeds);
    }
  }

  lemma HonouredAt(nodes: seq<Node>, depth: seq<nat>, a: nat, b: nat)
    requires IsTree(nodes, depth) && b < |nodes|
    ensures HonouredFromBelow(nodes, depth, a) && Above(nodes, depth, a, b) ==> Honoured(nodes, depth, a, b)
  {
  }

  /** The period of the last allocation, or -1. */
  function LastPulse(ops: seq<Op>): int
  {
    if ops == [] then -1
    else match ops[|ops| - 1]
      case Pulse(period) => period
      case Transfer(_, _, _, _, _, _) => LastPulse(ops[..|ops| - 1])
  }

  lemma {:induction false} LastPulseIsLast(ops: seq<Op>, i: nat)
    requires i < |ops| && ops[i].Pulse? && forall k | i < k < |ops| :: !ops[k].Pulse?
    ensures LastPulse(ops) == ops[i].period
    decreases |ops|
  {
    if i < |ops| - 1 {
      LastPulseIsLast(ops[..|ops| - 1], i);
    }
  }

  lemma NothingTotal(log: seq<Use>)
    ensures Total(log[|log|..]) == 0
  {
  }

  lemma TotalMore(log: seq<Use>, from: nat, use: Use)
    requires from <= |log|
    ensures Total((log + [use])[from..]) == Total(log[from..]) + use.size
    ensures Total((log + [])[from..]) == Total(log[from..])
  {
    assert (log + [use])[from..] == log[from..] + [use];
    assert (log[from..] + [use])[..|log[from..]|] == log[from..];
    assert log + [] == log;
  }

  lemma ReachNone(nodes: seq<Node>, depth: seq<nat>, b: nat)
    requires IsTree(nodes, depth) && b < |nodes|
    ensures forall x: nat | x < |nodes| :: Reached(nodes, depth, b, nodes[b].children[..0], x) <==> x == b
  {
  }

  lemma ReachAll(nodes: seq<Node>, depth: seq<nat>, b: nat)
    requires IsTree(nodes, depth) && b < |nodes|
    ensures forall x: nat | x < |nodes| :: Reached(nodes, depth, b, nodes[b].children[..|nodes[b].children|], x) <==> Above(nodes, depth, b, x)
  {
    var children := nodes[b].children;
    assert children[..|children|] == children;
    forall x: nat | x < |nodes|
      ensures Reached(nodes, depth, b, children, x) <==> Above(nodes, depth, b, x)
    {
      BelowChildren(nodes, depth, b, x);
    }
  }

  lemma ChildIsBelow(nodes: seq<Node>, depth: seq<nat>, b: nat, c: nat)
    requires IsTree(nodes, depth) && b < |nodes| && c in nodes[b].children
    ensures c < |nodes| && |depth| == |nodes| && depth[c] == depth[b] + 1
  {
  }

  lemma {:induction false} DeeperIsNotAbove(nodes: seq<Node>, depth: seq<nat>, a: nat, b: nat)
    requires IsTree(nodes, depth) && a < |nodes| && b < |nodes| && Above(nodes, depth, a, b)
    ensures depth[a] <= depth[b]
    decreases depth[b]
  {
    hide IsTree;
    TreeParents(nodes, depth, b);
    if a != b {
      DeeperIsNotAbove(nodes, depth, a, nodes[b].parent);
    }
  }

  lemma NotOwnAncestor(nodes: seq<Node>, depth: seq<nat>, b: nat)
    requires IsTree(nodes, depth) && b < |nodes| && nodes[b].parent != NO_PARENT
    ensures !Above(nodes, depth, b, nodes[b].parent)
  {
    TreeParents(nodes, depth, b);
    if Above(nodes, depth, b, nodes[b].parent) {
      DeeperIsNotAbove(nodes, depth, b, nodes[b].parent);
    }
  }
}
