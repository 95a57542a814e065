/** The router's search tree on the heap: mutable nodes, a shared capture stack, compression in place. */
module RuleTrie {
  import opened Common
  import opened RoutePatterns
  import opened RuleTree

  // The capture stack that the search shares between its branches.
  class RoutingParams {
    var intParams: seq<int>
    var uintParams: seq<nat>
    var doubleParams: seq<Double>
    var stringParams: seq<string>

    constructor ()
      ensures Get() == NOTHING
    {
      intParams, uintParams, doubleParams, stringParams := [], [], [], [];
    }

    function Get(): Captures
      reads this
    {
      Captures(intParams, uintParams, doubleParams, stringParams)
    }

    method Push(c: Capture)
      modifies this
      ensures Get() == old(Get()).Push(c)
    {
      match c
      case CInt(i) => intParams := intParams + [i];
      case CUint(u) => uintParams := uintParams + [u];
      case CDouble(d) => doubleParams := doubleParams + [d];
      case CString(s) => stringParams := stringParams + [s];
    }

    method Pop(c: Capture, ghost before: Captures)
      requires Get() == before.Push(c)
      modifies this
      ensures Get() == before
    {
      match c
      case CInt(_) => intParams := intParams[..|intParams| - 1];
      case CUint(_) => uintParams := uintParams[..|uintParams| - 1];
      case CDouble(_) => doubleParams := doubleParams[..|doubleParams| - 1];
      case CString(_) => stringParams := stringParams[..|stringParams| - 1];
    }
  }

  class Node {
    var ruleIndex: nat
    var blueprintIndex: nat
    var key: string
    var param: ParamType
    var children: seq<Node>
    ghost var Repr: set<Node>

    // The node and what hangs below it form a tree: no sharing, no cycle.
    ghost predicate Valid()
      reads this, Repr
      decreases Repr
      ensures Valid() ==> this in Repr
    {
      && this in Repr
      && (forall i :: 0 <= i < |children| ==>
            children[i] in Repr && children[i].Repr < Repr && this !in children[i].Repr)
      && (forall i, j :: 0 <= i < j < |children| ==> children[i].Repr !! children[j].Repr)
      && (forall i :: 0 <= i < |children| ==> children[i].Valid())
    }

    ghost function Value(): Tree
      requires Valid()
      reads this, Repr
      decreases Repr
      ensures |Value().kids| == |children|
    {
      Tree(ruleIndex, blueprintIndex, key, param,
           seq(|children|, i requires 0 <= i < |children| && Valid() reads this, Repr => children[i].Value()))
    }

    constructor ()
      ensures Valid() && fresh(Repr) && Repr == {this}
      ensures Value() == Tree(0, INVALID_BP_ID, "", MAX, [])
    {
      ruleIndex, blueprintIndex, key, param, children := 0, INVALID_BP_ID, "", MAX, [];
      Repr := {this};
    }

    method IsSimpleNode() returns (b: bool)
      requires Valid()
      ensures b == Value().IsSimple()
    {
      var all := true;
      for i := 0 to |children|
        invariant all <==> forall j :: 0 <= j < i ==> children[j].param == MAX
      {
        all := all && children[i].param == MAX;
      }
      assert forall i :: 0 <= i < |children| ==> Value().kids[i].param == children[i].param;
      b := ruleIndex == 0 && blueprintIndex == INVALID_BP_ID && |children| < 2 && param == MAX && all;
    }
  }

  method OptimizeNode(node: Node)
    requires node.Valid()
    modifies node.Repr
    ensures node.Valid() && node.Repr <= old(node.Repr)
    ensures node.Value() == Optimized(old(node.Value()))
    decreases Size(node.Value()), 1, 0
  {
    if node.children == [] {
      return;
    }
    var simple := node.IsSimpleNode();
    if simple {
      MergedIsSmaller(node.Value());
      MergeWithChild(node);
      OptimizeNode(node);
    } else {
      OptimizeChildren(node);
    }
  }

  method OptimizeChildren(node: Node)
    requires node.Valid()
    modifies node.Repr
    ensures node.Valid() && node.Repr == old(node.Repr)
    ensures node.Value() == OptimizedHead(old(node.Value()))
    decreases Size(node.Value()), 0, 0
  {
    hide *;
    ghost var before := node.Value();
    OptimizedFromEndToEnd(before);
    var i := 0;
    while i < |node.children|
      invariant 0 <= i <= |node.children| == |before.kids| && node.Valid()
      invariant node.Repr == old(node.Repr)
      invariant node.Value() == before.(kids := OptimizedUpTo(before.kids, i))
    {
      KidIsSmaller(before, i);
      OptimizedOneMore(before.kids, i);
      OptimizeChild(node, i);
      i := i + 1;
    }
  }

  // The child's rule and children move up; the child itself is deleted.
  method MergeWithChild(node: Node)
    requires node.Valid() && |node.children| == 1
    modifies node
    ensures node.Valid() && node.Repr <= old(node.Repr)
    ensures node.Value() == Merged(old(node.Value()))
  {
    var child := node.children[0];
    assert node.Value().kids[0] == child.Value();
    node.key := node.key + child.key;
    node.ruleIndex := child.ruleIndex;
    node.blueprintIndex := child.blueprintIndex;
    node.children := child.children;
    node.Repr := node.Repr - {child};
  }

  method OptimizeChild(node: Node, i: nat)
    requires node.Valid() && i < |node.children|
    modifies node.Repr
    ensures node.Valid() && node.Repr == old(node.Repr) && node.children == old(node.children)
    ensures node.Value() == old(node.Value()).(kids := old(node.Value()).kids[i := Optimized(old(node.Value()).kids[i])])
    decreases Size(node.Value().kids[i]), 2, 0
  {
    OptimizeNode(node.children[i]);
  }

  // Insertion ------------------------------------------------------------

  method FindLiteral(node: Node, c: char) returns (k: nat)
    requires node.Valid()
    ensures k == Seek(node.Value().kids, Lit(c))
  {
    k := 0;
    ghost var kids := node.Value().kids;
    while k < |node.children| && FirstChar(node.children[k].key) != c
      invariant k <= |node.children|
      invariant forall j :: 0 <= j < k ==> !Fits(kids[j], Lit(c))
    {
      assert kids[k] == node.children[k].Value();
      k := k + 1;
    }
    assert k < |kids| ==> kids[k] == node.children[k].Value();
  }

  method FindParam(node: Node, t: ParamType) returns (k: nat)
    requires node.Valid()
    ensures k == Seek(node.Value().kids, Param(t))
  {
    k := 0;
    ghost var kids := node.Value().kids;
    while k < |node.children| && node.children[k].param != t
      invariant k <= |node.children|
      invariant forall j :: 0 <= j < k ==> !Fits(kids[j], Param(t))
    {
      assert kids[k] == node.children[k].Value();
      k := k + 1;
    }
    assert k < |kids| ==> kids[k] == node.children[k].Value();
  }

  method Append(node: Node, child: Node)
    requires node.Valid() && child.Valid() && node.Repr !! child.Repr
    modifies node
    ensures node.Valid() && node.Repr == old(node.Repr) + child.Repr
    ensures node.children == old(node.children) + [child]
    ensures node.Value() == old(node.Value()).(kids := old(node.Value()).kids + [child.Value()])
  {
    node.children := node.children + [child];
    node.Repr := node.Repr + child.Repr;
  }

  method AddToChild(node: Node, k: nat, url: string, i: nat, ruleIndex: nat, bp: Blueprint) returns (ok: bool)
    requires node.Valid() && k < |node.children| && WellFormed(url, i)
    modifies node.Repr
    ensures node.Valid() && fresh(node.Repr - old(node.Repr))
    ensures ok <==> AddedText(old(node.Value().kids[k]), url, i, ruleIndex, bp).Some?
    ensures node.Value() ==
            if ok then old(node.Value()).(kids := PutKid(old(node.Value()).kids, k,
                         AddedText(old(node.Value().kids[k]), url, i, ruleIndex, bp).value))
            else old(node.Value())
    decreases |url| - i, 2
  {
    ghost var kids := node.Value().kids;
    ok := AddBelow(node.children[k], url, i, ruleIndex, bp);
    node.Repr := node.Repr + node.children[k].Repr;
    forall j | 0 <= j < |node.children|
      ensures node !in node.children[j].Repr && node.children[j].Repr < node.Repr && node.children[j].Valid()
      ensures j != k ==> node.children[j].Repr == old(node.children[j].Repr) && node.children[j].Value() == kids[j]
    {
    }
    assert node.Valid();
  }

  method NewChild(token: Token, i: nat, bp: Blueprint) returns (child: Node)
    ensures child.Valid() && fresh(child.Repr)
    ensures child.Value() == NewTree(token, i, bp)
  {
    child := new Node();
    match token
    case Param(t) => child.param := t;
    case Lit(c) =>
      child.key := [c];
      var hasBlueprint := bp.prefixLength != 0 && bp.index != INVALID_BP_ID;
      if hasBlueprint && i == bp.prefixLength {
        child.blueprintIndex := bp.index;
      }
  }

  // The child for the next token: the one that fits, or a new one.
  method Descend(node: Node, token: Token, i: nat, bp: Blueprint) returns (k: nat)
    requires node.Valid()
    modifies node
    ensures node.Valid() && fresh(node.Repr - old(node.Repr))
    ensures k == Seek(old(node.Value()).kids, token) < |node.children|
    ensures node.Value() == old(node.Value()).(kids := PutKid(old(node.Value()).kids, k, Host(old(node.Value()).kids, token, i, bp)))
  {
    hide Seek, PutKid, NewTree, Node.Value, Node.Valid;
    ghost var kids := node.Value().kids;
    match token {
      case Param(t) => k := FindParam(node, t);
      case Lit(c) => k := FindLiteral(node, c);
    }
    if k == |node.children| {
      var child := NewChild(token, i, bp);
      Append(node, child);
    } else {
      PutTwice(kids, k, kids[k], kids[k]);
    }
  }

  // The token at i and its width: a parameter tag is found by trying the traits in order.
  method ReadToken(url: string, i: nat) returns (n: Next)
    requires WellFormed(url, i) && i < |url|
    ensures n == NextToken(url, i)
  {
    if url[i] == '<' {
      var x := 0;
      while x < |TRAITS| && !StartsAt(url, i, TRAITS[x].name)
        invariant x <= |TRAITS| && TraitAt(url, i, x) == TraitAt(url, i, 0)
      {
        x := x + 1;
      }
      n := Next(Param(TRAITS[x].t), |TRAITS[x].name|);
    } else {
      n := Next(Lit(url[i]), 1);
    }
  }

  // One step down the tree per token of the rule; nodes that are missing are made.
  method AddBelow(node: Node, url: string, i: nat, ruleIndex: nat, bp: Blueprint) returns (ok: bool)
    requires node.Valid() && WellFormed(url, i)
    modifies node.Repr
    ensures node.Valid() && fresh(node.Repr - old(node.Repr))
    ensures ok <==> AddedText(old(node.Value()), url, i, ruleIndex, bp).Some?
    ensures node.Value() == if ok then AddedText(old(node.Value()), url, i, ruleIndex, bp).value
                            else old(node.Value())
    decreases |url| - i, 1
  {
    if i == |url| {
      if node.ruleIndex != 0 {
        return false;
      }
      node.ruleIndex := ruleIndex;
      return true;
    }
    ok := AddNext(node, url, i, ruleIndex, bp);
  }

  method AddNext(node: Node, url: string, i: nat, ruleIndex: nat, bp: Blueprint) returns (ok: bool)
    requires node.Valid() && i < |url| && WellFormed(url, i)
    modifies node.Repr
    ensures node.Valid() && fresh(node.Repr - old(node.Repr))
    ensures ok <==> AddedText(old(node.Value()), url, i, ruleIndex, bp).Some?
    ensures node.Value() == if ok then AddedText(old(node.Value()), url, i, ruleIndex, bp).value
                            else old(node.Value())
    decreases |url| - i, 0
  {
    hide *;
    ghost var before := node.Value();
    var next := ReadToken(url, i);
    AddedStep(before, url, i, ruleIndex, bp, next,
              AddedText(Host(before.kids, next.token, i, bp), url, i + next.width, ruleIndex, bp));
    var k := Descend(node, next.token, i, bp);
    ghost var host := node.Value().kids[k];
    assert host == Host(before.kids, next.token, i, bp);
    ghost var sub := AddedText(host, url, i + next.width, ruleIndex, bp);
    PutTwice(before.kids, k, host, if sub.Some? then sub.value else host);
    ok := AddToChild(node, k, url, i + next.width, ruleIndex, bp);
    assert ok <==> sub.Some?;
  }

  // Search ---------------------------------------------------------------

  // The end of the segment that starts at pos.
  method SegmentEnd(url: string, pos: nat) returns (epos: nat)
    requires pos <= |url|
    ensures epos == NextSlash(url, pos)
  {
    epos := pos;
    while epos < |url| && url[epos] != '/'
      invariant pos <= epos <= |url| && NextSlash(url, epos) == NextSlash(url, pos)
    {
      epos := epos + 1;
    }
  }

  // What a parameter child takes at pos: one branch per parameter type.
  method TakeParam(sc: Scanners, param: ParamType, url: string, pos: nat) returns (piece: Option<Piece>)
    requires sc.Valid() && pos < |url|
    ensures piece == Take(sc, param, url, pos)
  {
    var c := url[pos];
    piece := None;
    match param {
      case INT =>
        if '0' <= c <= '9' || c == '+' || c == '-' {
          var n := sc.ll(url, pos);
          if !n.outOfRange && n.end != pos {
            piece := Some(Piece(n.end, CInt(n.value)));
          }
        }
      case UINT =>
        if '0' <= c <= '9' || c == '+' {
          var n := sc.ull(url, pos);
          if !n.outOfRange && n.end != pos {
            piece := Some(Piece(n.end, CUint(n.value)));
          }
        }
      case DOUBLE =>
        if '0' <= c <= '9' || c == '+' || c == '-' || c == '.' {
          var n := sc.dbl(url, pos);
          if !n.outOfRange && n.end != pos {
            piece := Some(Piece(n.end, CDouble(n.value)));
          }
        }
      case STRING =>
        var epos := SegmentEnd(url, pos);
        if epos != pos {
          piece := Some(Piece(epos, CString(url[pos..epos])));
        }
      case PATH =>
        assert url[pos..|url|] == url[pos..];
        piece := Some(Piece(|url|, CString(url[pos..|url|])));
      case MAX =>
    }
  }

  // The backtracking search; captures are pushed before and popped after each child.
  method FindFrom(sc: Scanners, node: Node, url: string, pos: nat, params: RoutingParams) returns (found: Found)
    requires sc.Valid() && node.Valid() && pos <= |url|
    modifies params
    ensures found == Find(sc, node.Value(), url, pos, old(params.Get()))
    ensures params.Get() == old(params.Get())
    decreases node.Repr, 0
  {
    if pos == |url| {
      return Found(node.ruleIndex, params.Get());
    }
    found := Found(0, NOTHING);
    ghost var kids := node.Value().kids;
    var i := 0;
    while i < |node.children|
      invariant i <= |node.children| && params.Get() == old(params.Get())
      invariant found == FindIn(sc, kids[..i], url, pos, params.Get())
    {
      assert kids[..i + 1][..i] == kids[..i];
      assert kids[i] == node.children[i].Value();
      found := FindChild(sc, node.children[i], url, pos, params, found);
      i := i + 1;
    }
    assert kids[..i] == kids;
  }

  method FindChild(sc: Scanners, child: Node, url: string, pos: nat, params: RoutingParams, best: Found) returns (found: Found)
    requires sc.Valid() && child.Valid() && pos < |url|
    modifies params
    ensures found == match Enter(sc, child.Value(), url, pos, old(params.Get()))
                     case None => best
                     case Some(at) => Better(best, Find(sc, child.Value(), url, at.pos, at.caps))
    ensures params.Get() == old(params.Get())
    decreases child.Repr, 1
  {
    hide Find, Take;
    found := best;
    if child.param != MAX {
      var piece := TakeParam(sc, child.param, url, pos);
      if piece.Some? {
        params.Push(piece.value.capture);
        var ret := FindFrom(sc, child, url, piece.value.end, params);
        found := UpdateFound(found, ret);
        params.Pop(piece.value.capture, old(params.Get()));
      }
    } else if StartsAt(url, pos, child.key) {
      var ret := FindFrom(sc, child, url, pos + |child.key|, params);
      found := UpdateFound(found, ret);
    }
  }

  method UpdateFound(found: Found, ret: Found) returns (r: Found)
    ensures r == Better(found, ret)
  {
    r := found;
    if ret.index != 0 && (found.index == 0 || found.index > ret.index) {
      r := ret;
    }
  }

  // The router's trie ----------------------------------------------------

  class Trie {
    const head: Node
    ghost var added: seq<Rule>
    ghost var optimized: bool

    ghost predicate Valid()
      reads this, head, head.Repr
    {
      head.Valid() && Holds(head.Value(), added) && (!optimized ==> Plain(head.Value().kids))
    }

    constructor ()
      ensures Valid() && fresh(head.Repr) && added == [] && !optimized
    {
      head := new Node();
      added, optimized := [], false;
      new;
      HoldsNothing(head.Value());
    }

    // Adds a rule unless its pattern already carries one. Only an unoptimised
    // tree can grow.
    method Add(url: string, ruleIndex: nat, bpPrefixLength: nat, blueprintIndex: nat) returns (ok: bool)
      requires Valid() && !optimized && WellFormed(url, 0)
      modifies this, head.Repr
      ensures Valid() && !optimized && fresh(head.Repr - old(head.Repr))
      ensures ok <==> !exists e :: e in RuleList(old(added)) && e.index != 0 && e.pattern == Tokens(url, 0)
      ensures added == if ok then old(added) + [Rule(url, ruleIndex)] else old(added)
    {
      hide AddedText, Entries, RuleList, Plain, Holds, Tokens, Node.Value;
      AddedHolds(head.Value(), added, Rule(url, ruleIndex), Blueprint(bpPrefixLength, blueprintIndex));
      ok := AddBelow(head, url, 0, ruleIndex, Blueprint(bpPrefixLength, blueprintIndex));
      if ok {
        added := added + [Rule(url, ruleIndex)];
      }
    }

    method Optimize()
      requires Valid()
      modifies this, head.Repr
      ensures Valid() && optimized && added == old(added)
    {
      OptimizedHolds(head.Value(), added);
      OptimizeChildren(head);
      optimized := true;
    }

    // Compresses the tree, provided that every rule starts with the same character.
    method Validate() returns (ok: bool)
      requires Valid()
      modifies this, head.Repr
      ensures Valid() && added == old(added)
      ensures ok == old(head.Value()).IsSimple()
      ensures optimized == (ok || old(optimized))
    {
      ok := head.IsSimpleNode();
      if ok {
        Optimize();
      }
    }

    method Search(sc: Scanners, url: string) returns (found: Found)
      requires Valid() && sc.Valid()
      ensures IsLeast(sc, RuleList(added), url, found)
    {
      var params := new RoutingParams();
      found := FindFrom(sc, head, url, 0, params);
      FoundIsLeast(sc, head.Value(), added, url);
    }
  }
}
