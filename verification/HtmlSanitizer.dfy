/**
 Bootstrap's HTML sanitizer.  It walks a snapshot of the document's elements and edits the document in place: an
 element that is not whitelisted is taken out of its parent, another one loses the attributes it may not have.
 What that amounts to is a recursive pruning of the tree.
 */
module HtmlSanitizer {
  import opened Sequences

  // ---------------------------------------------------------------- the policy

  datatype Attr = Attr(nodeName: string, nodeValue: string)

  /** An entry of an attribute list: a name, or a regular expression known by its number. */
  datatype Entry = Name(name: string) | Pattern(regExp: int)

  /**
   The whitelist, and what the regular expressions match: an attribute name against an entry, and an attribute
   value against the two patterns for safe and data URLs.
   */
  datatype Policy = Policy(whitelist: map<string, seq<Entry>>, matches: (int, string) -> bool, safeUrl: string -> bool)

  const URI_ATTRS := ["background", "cite", "href", "itemtype", "longdesc", "poster", "src", "xlink:href"]

  function ToLower(s: string): (r: string)
    ensures |r| == |s|
  {
    seq(|s|, i requires 0 <= i < |s| =>
      if 'A' <= s[i] <= 'Z' then ((s[i] as int) + 32) as char else s[i])
  }

  predicate Allowed(policy: Policy, attr: Attr, list: seq<Entry>) {
    var name := ToLower(attr.nodeName);
    if Name(name) in list then name in URI_ATTRS ==> policy.safeUrl(attr.nodeValue)
    else exists i :: 0 <= i < |list| && list[i].Pattern? && policy.matches(list[i].regExp, name)
  }

  method AllowedAttribute(policy: Policy, attr: Attr, list: seq<Entry>) returns (allowed: bool)
    ensures allowed <==> Allowed(policy, attr, list)
  {
    var attrName := ToLower(attr.nodeName);
    if Name(attrName) in list {
      return attrName !in URI_ATTRS || policy.safeUrl(attr.nodeValue);
    }
    for i := 0 to |list|
      invariant forall k :: 0 <= k < i ==> !(list[k].Pattern? && policy.matches(list[k].regExp, attrName))
    {
      if list[i].Pattern? && policy.matches(list[i].regExp, attrName) {
        return true;
      }
    }
    return false;
  }

  predicate Listed(policy: Policy, nodeName: string) {
    ToLower(nodeName) in policy.whitelist
  }

  /** The attribute list of an element: the entries for every element, then those for its own name. */
  function ListFor(policy: Policy, nodeName: string): (list: seq<Entry>)
    ensures forall e :: e in list <==>
              || ("*" in policy.whitelist && e in policy.whitelist["*"])
              || (Listed(policy, nodeName) && e in policy.whitelist[ToLower(nodeName)])
  {
    var all := if "*" in policy.whitelist then policy.whitelist["*"] else [];
    var own := if ToLower(nodeName) in policy.whitelist then policy.whitelist[ToLower(nodeName)] else [];
    all + own
  }

  function KeepAllowed(policy: Policy, attrs: seq<Attr>, list: seq<Entry>): (kept: seq<Attr>)
    ensures forall attr :: attr in kept <==> attr in attrs && Allowed(policy, attr, list)
  {
    if attrs == [] then []
    else (if Allowed(policy, attrs[0], list) then [attrs[0]] else []) + KeepAllowed(policy, attrs[1..], list)
  }

  // ---------------------------------------------------------------- pruning a tree

  datatype Tree =
    | Text(text: string)
    | Element(nodeName: string, attrs: seq<Attr>, children: seq<Tree>)

  /** The forest without the subtrees of elements that are not listed, and without attributes not allowed. */
  function Prune(policy: Policy, forest: seq<Tree>): seq<Tree> {
    if forest == [] then []
    else PruneTree(policy, forest[0]) + Prune(policy, forest[1..])
  }

  function PruneTree(policy: Policy, tree: Tree): seq<Tree> {
    match tree
    case Text(_) => [tree]
    case Element(name, attrs, children) =>
      if Listed(policy, name) then
        [Element(name, KeepAllowed(policy, attrs, ListFor(policy, name)), Prune(policy, children))]
      else []
  }

  /** Every element is listed and has only attributes it is allowed. */
  predicate Clean(policy: Policy, forest: seq<Tree>) {
    forall tree :: tree in forest ==> CleanTree(policy, tree)
  }

  predicate CleanTree(policy: Policy, tree: Tree) {
    tree.Element? ==>
      && Listed(policy, tree.nodeName)
      && (forall attr :: attr in tree.attrs ==> Allowed(policy, attr, ListFor(policy, tree.nodeName)))
      && forall child :: child in tree.children ==> CleanTree(policy, child)
  }

  /** Nothing unlisted and no attribute not allowed is left, at any depth. */
  lemma {:induction false} PruneIsClean(policy: Policy, forest: seq<Tree>)
    ensures Clean(policy, Prune(policy, forest))
  {
    if forest != [] {
      if forest[0].Element? {
        PruneIsClean(policy, forest[0].children);
      }
      PruneIsClean(policy, forest[1..]);
    }
  }

  lemma {:induction false} KeepAllowedKeepsAll(policy: Policy, attrs: seq<Attr>, list: seq<Entry>)
    requires forall attr :: attr in attrs ==> Allowed(policy, attr, list)
    ensures KeepAllowed(policy, attrs, list) == attrs
  {
    if attrs != [] {
      KeepAllowedKeepsAll(policy, attrs[1..], list);
    }
  }

  /** A clean forest is left unchanged, and no other is. */
  lemma {:induction false} PruneKeepsExactlyClean(policy: Policy, forest: seq<Tree>)
    ensures Prune(policy, forest) == forest <==> Clean(policy, forest)
  {
    if Clean(policy, forest) {
      PruneKeepsClean(policy, forest);
    } else {
      PruneIsClean(policy, forest);
    }
  }

  lemma {:induction false} PruneKeepsClean(policy: Policy, forest: seq<Tree>)
    requires Clean(policy, forest)
    ensures Prune(policy, forest) == forest
  {
    if forest != [] {
      assert CleanTree(policy, forest[0]);
      if forest[0].Element? {
        PruneKeepsClean(policy, forest[0].children);
        KeepAllowedKeepsAll(policy, forest[0].attrs, ListFor(policy, forest[0].nodeName));
      }
      PruneKeepsClean(policy, forest[1..]);
    }
  }

  lemma PruneIdempotent(policy: Policy, forest: seq<Tree>)
    ensures Prune(policy, Prune(policy, forest)) == Prune(policy, forest)
  {
    PruneIsClean(policy, forest);
    PruneKeepsClean(policy, Prune(policy, forest));
  }

  // ---------------------------------------------------------------- the document

  /** rank bounds the depth below the node; it makes every document a finite tree. */
  class Node {
    const isElement: bool
    const nodeName: string
    const text: string
    ghost const rank: nat
    var attributes: seq<Attr>
    var childNodes: seq<Node>
    var parentNode: Node?

    constructor (isElement: bool, nodeName: string, text: string, ghost rank: nat)
      ensures this.isElement == isElement && this.nodeName == nodeName && this.text == text && this.rank == rank
      ensures attributes == [] && childNodes == [] && parentNode == null
    {
      this.isElement, this.nodeName, this.text, this.rank := isElement, nodeName, text, rank;
      attributes, childNodes, parentNode := [], [], null;
    }

    method RemoveAttribute(name: string)
      modifies this`attributes
      ensures attributes == WithoutName(old(attributes), name)
    {
      attributes := WithoutName(attributes, name);
    }

    method RemoveChild(child: Node)
      modifies this`childNodes, child`parentNode
      ensures childNodes == Without(old(childNodes), {child}) && child.parentNode == null
    {
      childNodes := Without(childNodes, {child});
      child.parentNode := null;
    }
  }

  function WithoutName(attrs: seq<Attr>, name: string): seq<Attr> {
    if attrs == [] then []
    else (if attrs[0].nodeName == name then [] else [attrs[0]]) + WithoutName(attrs[1..], name)
  }

  function Without(nodes: seq<Node>, gone: set<Node>): (kept: seq<Node>)
    ensures forall n :: n in kept ==> n in nodes && n !in gone
    ensures forall n :: n in nodes && n !in gone ==> n in kept
  {
    if nodes == [] then []
    else (if nodes[0] in gone then [] else [nodes[0]]) + Without(nodes[1..], gone)
  }

  /** The state of a document's nodes at one moment. */
  datatype Doc = Doc(kids: map<Node, seq<Node>>, attrs: map<Node, seq<Attr>>)

  ghost predicate Shaped(d: Doc) {
    && d.kids.Keys == d.attrs.Keys
    && forall n, c :: n in d.kids && c in d.kids[n] ==> c in d.kids && c.rank < n.rank
  }

  ghost predicate Known(d: Doc, nodes: seq<Node>) {
    forall n :: n in nodes ==> n in d.kids
  }

  ghost function Height(nodes: seq<Node>): (h: nat)
    ensures forall n :: n in nodes ==> n.rank < h
  {
    if nodes == [] then 0
    else if nodes[0].rank + 1 > Height(nodes[1..]) then nodes[0].rank + 1
    else Height(nodes[1..])
  }

  lemma {:induction false} HeightWithin(nodes: seq<Node>, bound: nat)
    requires forall n :: n in nodes ==> n.rank < bound
    ensures Height(nodes) <= bound
  {
    if nodes != [] {
      assert nodes[0] in nodes;
      HeightWithin(nodes[1..], bound);
    }
  }

  /** The trees that hang from some nodes of a document. */
  ghost function TreesOf(d: Doc, nodes: seq<Node>): seq<Tree>
    requires Shaped(d) && Known(d, nodes)
    decreases Height(nodes), 0, |nodes|
  {
    if nodes == [] then [] else [TreeOf(d, nodes[0])] + TreesOf(d, nodes[1..])
  }

  ghost function TreeOf(d: Doc, n: Node): Tree
    requires Shaped(d) && n in d.kids
    decreases n.rank, 1, 0
  {
    HeightWithin(d.kids[n], n.rank);
    if n.isElement then Element(n.nodeName, d.attrs[n], TreesOf(d, d.kids[n])) else Text(n.text)
  }

  /** A document: its nodes, consistently linked, with no attribute name twice on an element. */
  ghost predicate Linked(nodes: set<Node>)
    reads nodes
  {
    forall n :: n in nodes ==>
      && (forall c :: c in n.childNodes ==> c in nodes && c.rank < n.rank && c.parentNode == n)
      && (n.parentNode != null ==> n.parentNode in nodes && n in n.parentNode.childNodes)
      && DistinctNames(n.attributes)
  }

  predicate DistinctNames(attrs: seq<Attr>) {
    forall i, j :: 0 <= i < j < |attrs| ==> attrs[i].nodeName != attrs[j].nodeName
  }

  ghost function Snapshot(nodes: set<Node>): (d: Doc)
    reads nodes
    ensures d.kids.Keys == d.attrs.Keys == nodes
    ensures forall n :: n in nodes ==> d.kids[n] == n.childNodes && d.attrs[n] == n.attributes
  {
    Doc(map n | n in nodes :: n.childNodes, map n | n in nodes :: n.attributes)
  }

  // ---------------------------------------------------------------- editing in place

  lemma {:induction false} WithoutTwice(nodes: seq<Node>, gone: set<Node>, more: set<Node>)
    ensures Without(Without(nodes, gone), more) == Without(nodes, gone + more)
  {
    if nodes != [] {
      WithoutTwice(nodes[1..], gone, more);
      var rest := Without(nodes[1..], gone);
      if nodes[0] in gone {
        assert Without(nodes, gone) == rest;
      } else {
        assert Without(nodes, gone) == [nodes[0]] + rest && ([nodes[0]] + rest)[1..] == rest;
      }
    }
  }

  lemma {:induction false} WithoutAbsent(nodes: seq<Node>, gone: set<Node>, n: Node)
    requires n !in nodes
    ensures Without(nodes, gone + {n}) == Without(nodes, gone)
  {
    if nodes != [] {
      WithoutAbsent(nodes[1..], gone, n);
    }
  }

  lemma {:induction false} WithoutNone(nodes: seq<Node>)
    ensures Without(nodes, {}) == nodes
  {
    if nodes != [] {
      WithoutNone(nodes[1..]);
    }
  }

  lemma {:induction false} KeepAllowedPlus(policy: Policy, a: seq<Attr>, b: seq<Attr>, list: seq<Entry>)
    ensures KeepAllowed(policy, a + b, list) == KeepAllowed(policy, a, list) + KeepAllowed(policy, b, list)
  {
    if a == [] {
      assert a + b == b;
    } else {
      assert (a + b)[1..] == a[1..] + b;
      KeepAllowedPlus(policy, a[1..], b, list);
    }
  }

  lemma {:induction false} WithoutNamePlus(a: seq<Attr>, b: seq<Attr>, name: string)
    ensures WithoutName(a + b, name) == WithoutName(a, name) + WithoutName(b, name)
  {
    if a == [] {
      assert a + b == b;
    } else {
      assert (a + b)[1..] == a[1..] + b;
      WithoutNamePlus(a[1..], b, name);
    }
  }

  lemma {:induction false} WithoutNameAbsent(attrs: seq<Attr>, name: string)
    requires forall attr :: attr in attrs ==> attr.nodeName != name
    ensures WithoutName(attrs, name) == attrs
  {
    if attrs != [] {
      WithoutNameAbsent(attrs[1..], name);
    }
  }

  /** The attributes after the first j have been looked at. */
  function Partly(policy: Policy, attrs: seq<Attr>, j: nat, list: seq<Entry>): seq<Attr>
    requires j <= |attrs|
  {
    KeepAllowed(policy, attrs[..j], list) + attrs[j..]
  }

  lemma WithoutNameBetween(a: seq<Attr>, x: Attr, b: seq<Attr>)
    requires forall attr :: attr in a || attr in b ==> attr.nodeName != x.nodeName
    ensures WithoutName(a + ([x] + b), x.nodeName) == a + b
  {
    WithoutNamePlus(a, [x] + b, x.nodeName);
    WithoutNameAbsent(a, x.nodeName);
    WithoutNameAbsent(b, x.nodeName);
    assert ([x] + b)[1..] == b;
  }

  lemma KeepAllowedOne(policy: Policy, attr: Attr, list: seq<Entry>)
    ensures KeepAllowed(policy, [attr], list) == if Allowed(policy, attr, list) then [attr] else []
  {}

  /** Looking at one more attribute, between those kept so far and the rest. */
  lemma PartlyParts(policy: Policy, attrs: seq<Attr>, j: nat, list: seq<Entry>)
    requires j < |attrs|
    ensures
      var kept, x, rest := KeepAllowed(policy, attrs[..j], list), attrs[j], attrs[j + 1..];
      && Partly(policy, attrs, j, list) == kept + ([x] + rest)
      && Partly(policy, attrs, j + 1, list) == kept + KeepAllowed(policy, [x], list) + rest
  {
    assert attrs[..j + 1] == attrs[..j] + [attrs[j]] && attrs[j..] == [attrs[j]] + attrs[j + 1..];
    KeepAllowedPlus(policy, attrs[..j], [attrs[j]], list);
  }

  lemma OtherNames(attrs: seq<Attr>, j: nat, attr: Attr)
    requires j < |attrs| && DistinctNames(attrs) && (attr in attrs[..j] || attr in attrs[j + 1..])
    ensures attr.nodeName != attrs[j].nodeName
  {}

  lemma PartlyStep(policy: Policy, attrs: seq<Attr>, j: nat, list: seq<Entry>)
    requires j < |attrs| && DistinctNames(attrs)
    ensures Partly(policy, attrs, j + 1, list) ==
            if Allowed(policy, attrs[j], list) then Partly(policy, attrs, j, list)
            else WithoutName(Partly(policy, attrs, j, list), attrs[j].nodeName)
  {
    var kept, x, rest := KeepAllowed(policy, attrs[..j], list), attrs[j], attrs[j + 1..];
    PartlyParts(policy, attrs, j, list);
    KeepAllowedOne(policy, x, list);
    if Allowed(policy, x, list) {
      PlusAssociates(kept, [x], rest);
    } else {
      forall attr | attr in kept || attr in rest ensures attr.nodeName != x.nodeName {
        OtherNames(attrs, j, attr);
      }
      WithoutNameBetween(kept, x, rest);
      assert kept + [] == kept;
    }
  }

  method SanitizeAttributes(policy: Policy, el: Node)
    requires DistinctNames(el.attributes)
    modifies el`attributes
    ensures el.attributes == KeepAllowed(policy, old(el.attributes), ListFor(policy, el.nodeName))
  {
    var attributeList := el.attributes;
    var list := ListFor(policy, el.nodeName);
    for j := 0 to |attributeList|
      invariant el.attributes == Partly(policy, attributeList, j, list)
    {
      PartlyStep(policy, attributeList, j, list);
      var allowed := AllowedAttribute(policy, attributeList[j], list);
      if !allowed {
        el.RemoveAttribute(attributeList[j].nodeName);
      }
    }
    assert attributeList[..|attributeList|] == attributeList && attributeList[|attributeList|..] == [];
  }

  /** elements lists, each once, the elements of the document below its body. */
  ghost predicate IsSnapshot(elements: seq<Node>, body: Node, nodes: set<Node>) {
    && (forall n :: n in nodes ==> (n in elements <==> n.isElement && n != body))
    && (forall n :: n in elements ==> n in nodes)
    && forall i, j :: 0 <= i < j < |elements| ==> elements[i] != elements[j]
  }

  predicate Removable(policy: Policy, n: Node) {
    n.isElement && !Listed(policy, n.nodeName)
  }

  /** Pointwise, what the loop makes of d: some nodes are taken out, and listed elements' attributes filtered. */
  ghost predicate Edited(policy: Policy, d: Doc, d': Doc, gone: set<Node>) {
    && d.kids.Keys == d.attrs.Keys == d'.kids.Keys == d'.attrs.Keys
    && (forall n :: n in d.kids ==> d'.kids[n] == Without(d.kids[n], gone))
    && (forall n, c :: n in d.kids && c in d.kids[n] && c in d.attrs ==> ChildEdited(policy, d, d', gone, c))
  }

  ghost predicate ChildEdited(policy: Policy, d: Doc, d': Doc, gone: set<Node>, c: Node)
    requires c in d.attrs && c in d'.attrs
  {
    && (c in gone <==> Removable(policy, c))
    && (c.isElement && c !in gone ==> d'.attrs[c] == KeepAllowed(policy, d.attrs[c], ListFor(policy, c.nodeName)))
  }

  lemma EditedShaped(policy: Policy, d: Doc, d': Doc, gone: set<Node>)
    requires Shaped(d) && Edited(policy, d, d', gone)
    ensures Shaped(d')
  {}

  lemma PruneFirst(policy: Policy, tree: Tree, forest: seq<Tree>)
    ensures Prune(policy, [tree] + forest) == PruneTree(policy, tree) + Prune(policy, forest)
  {}

  lemma TreesOfFirst(d: Doc, n: Node, rest: seq<Node>)
    requires Shaped(d) && n in d.kids && Known(d, rest)
    ensures Known(d, [n] + rest) && TreesOf(d, [n] + rest) == [TreeOf(d, n)] + TreesOf(d, rest)
  {}

  lemma KnownWithout(d: Doc, d': Doc, parent: Node, nodes: seq<Node>, gone: set<Node>)
    requires Shaped(d) && d.kids.Keys == d'.kids.Keys && parent in d.kids && Among(nodes, d.kids[parent])
    ensures Known(d, nodes) && Known(d', Without(nodes, gone))
  {}

  predicate Among(nodes: seq<Node>, all: seq<Node>) {
    forall n :: n in nodes ==> n in all
  }

  lemma WithoutFirst(n: Node, rest: seq<Node>, gone: set<Node>)
    ensures Without([n] + rest, gone) == if n in gone then Without(rest, gone) else [n] + Without(rest, gone)
  {}

  /** The trees that hang from an edited document are the pruned trees of the original one. */
  lemma {:induction false} EditedIsPruned(policy: Policy, d: Doc, d': Doc, gone: set<Node>, parent: Node,
                                          nodes: seq<Node>)
    requires Shaped(d) && Shaped(d') && Edited(policy, d, d', gone)
    requires parent in d.kids && Among(nodes, d.kids[parent])
    ensures Known(d, nodes) && Known(d', Without(nodes, gone))
    ensures TreesOf(d', Without(nodes, gone)) == Prune(policy, TreesOf(d, nodes))
    decreases Height(nodes), 0, |nodes|
  {
    KnownWithout(d, d', parent, nodes, gone);
    if nodes == [] {
      assert Without(nodes, gone) == [];
    } else {
      assert nodes[0] in nodes && Among(nodes[1..], d.kids[parent]);
      EditedIsPruned(policy, d, d', gone, parent, nodes[1..]);
      EditedTree(policy, d, d', gone, parent, nodes[0]);
      EditedFirst(policy, d, d', gone, nodes[0], nodes[1..]);
      assert nodes == [nodes[0]] + nodes[1..];
    }
  }

  lemma EditedFirst(policy: Policy, d: Doc, d': Doc, gone: set<Node>, n: Node, rest: seq<Node>)
    requires Shaped(d) && Shaped(d') && Known(d, rest) && Known(d', Without(rest, gone))
    requires n in d.kids && n in d'.kids
    requires TreesOf(d', Without(rest, gone)) == Prune(policy, TreesOf(d, rest))
    requires PruneTree(policy, TreeOf(d, n)) == if n in gone then [] else [TreeOf(d', n)]
    ensures Known(d, [n] + rest) && Known(d', Without([n] + rest, gone))
    ensures TreesOf(d', Without([n] + rest, gone)) == Prune(policy, TreesOf(d, [n] + rest))
  {
    TreesOfFirst(d, n, rest);
    TreesOfFirst(d', n, Without(rest, gone));
    WithoutFirst(n, rest, gone);
    PruneFirst(policy, TreeOf(d, n), TreesOf(d, rest));
  }

  lemma {:induction false} EditedTree(policy: Policy, d: Doc, d': Doc, gone: set<Node>, parent: Node, n: Node)
    requires Shaped(d) && Shaped(d') && Edited(policy, d, d', gone)
    requires parent in d.kids && n in d.kids[parent]
    ensures PruneTree(policy, TreeOf(d, n)) == if n in gone then [] else [TreeOf(d', n)]
    decreases n.rank, 1, 0
  {
    assert ChildEdited(policy, d, d', gone, n);
    if n !in gone && n.isElement {
      HeightWithin(d.kids[n], n.rank);
      EditedIsPruned(policy, d, d', gone, n, d.kids[n]);
    }
  }

  // ---------------------------------------------------------------- the loop

  ghost predicate KidsAre(nodes: set<Node>, d: Doc, gone: set<Node>)
    reads nodes
  {
    forall n :: n in nodes ==> n in d.kids && n.childNodes == Without(d.kids[n], gone)
  }

  ghost predicate AttrsAre(policy: Policy, nodes: set<Node>, d: Doc, done: set<Node>)
    reads nodes
  {
    forall n :: n in nodes ==> n in d.attrs && n.attributes == Filtered(policy, d, done, n)
  }

  ghost function Filtered(policy: Policy, d: Doc, done: set<Node>, n: Node): seq<Attr>
    requires n in d.attrs
  {
    if n in done then KeepAllowed(policy, d.attrs[n], ListFor(policy, n.nodeName)) else d.attrs[n]
  }

  /** Nodes that were not taken out keep their parent. */
  ghost predicate ParentsAre(nodes: set<Node>, homes: map<Node, Node?>, gone: set<Node>)
    reads nodes
  {
    forall n :: n in nodes && n !in gone ==> n in homes && n.parentNode == homes[n]
  }

  /** No node but parent has n as a child. */
  ghost predicate ChildOfOnly(d: Doc, n: Node, parent: Node) {
    forall m :: m in d.kids && m != parent ==> n !in d.kids[m]
  }

  lemma KidsWithout(d: Doc, gone: set<Node>, el: Node, parent: Node, n: Node)
    requires n in d.kids && ChildOfOnly(d, el, parent)
    ensures Without(d.kids[n], gone + {el})
         == if n == parent then Without(Without(d.kids[n], gone), {el}) else Without(d.kids[n], gone)
  {
    WithoutTwice(d.kids[n], gone, {el});
    if n != parent {
      WithoutAbsent(d.kids[n], gone, el);
    }
  }

  /** Taking an element out of its parent: no other node has it as a child. */
  method TakeOut(el: Node, ghost nodes: set<Node>, ghost d: Doc, ghost homes: map<Node, Node?>, ghost gone: set<Node>)
    requires el in nodes && el.parentNode != null && el.parentNode in nodes && ChildOfOnly(d, el, el.parentNode)
    requires KidsAre(nodes, d, gone) && ParentsAre(nodes, homes, gone)
    modifies el.parentNode`childNodes, el`parentNode
    ensures KidsAre(nodes, d, gone + {el}) && ParentsAre(nodes, homes, gone + {el})
  {
    var parent := el.parentNode;
    forall n | n in nodes
      ensures Without(d.kids[n], gone + {el}) == if n == parent then Without(n.childNodes, {el}) else n.childNodes
    {
      KidsWithout(d, gone, el, parent, n);
    }
    parent.RemoveChild(el);
  }

  /** The elements taken out, and those whose attributes are filtered, once el has been visited. */
  ghost function GoneAfter(policy: Policy, el: Node, gone: set<Node>): set<Node> {
    if Listed(policy, el.nodeName) then gone else gone + {el}
  }

  ghost function DoneAfter(policy: Policy, el: Node, done: set<Node>): set<Node> {
    if Listed(policy, el.nodeName) then done + {el} else done
  }

  /** The nodes as they are when some have been taken out, and the attributes of others filtered. */
  ghost predicate Edits(policy: Policy, nodes: set<Node>, d: Doc, homes: map<Node, Node?>, gone: set<Node>,
                        done: set<Node>)
    reads nodes
  {
    KidsAre(nodes, d, gone) && ParentsAre(nodes, homes, gone) && AttrsAre(policy, nodes, d, done)
  }

  /** The body of the loop: el is taken out, or has its attributes filtered. */
  method Visit(policy: Policy, el: Node, ghost nodes: set<Node>, ghost d: Doc, ghost homes: map<Node, Node?>,
               ghost gone: set<Node>, ghost done: set<Node>)
    requires el in nodes && el !in gone && el !in done && DistinctNames(el.attributes)
    requires el.parentNode != null && el.parentNode in nodes && ChildOfOnly(d, el, el.parentNode)
    requires Edits(policy, nodes, d, homes, gone, done)
    modifies nodes
    ensures Edits(policy, nodes, d, homes, GoneAfter(policy, el, gone), DoneAfter(policy, el, done))
  {
    if !Listed(policy, el.nodeName) {
      TakeOut(el, nodes, d, homes, gone);
    } else {
      SanitizeAttributes(policy, el);
    }
  }

  /** The elements seen so far: listed ones are done, the others gone. */
  ghost predicate Seen(policy: Policy, elements: seq<Node>, gone: set<Node>, done: set<Node>) {
    && (forall n :: n in elements ==> if Listed(policy, n.nodeName) then n in done else n in gone)
    && (forall n :: n in gone ==> n in elements && !Listed(policy, n.nodeName))
    && (forall n :: n in done ==> n in elements && Listed(policy, n.nodeName))
  }

  lemma SeenNext(policy: Policy, elements: seq<Node>, i: nat, gone: set<Node>, done: set<Node>)
    requires i < |elements| && Seen(policy, elements[..i], gone, done)
    ensures
      Seen(policy, elements[..i + 1], GoneAfter(policy, elements[i], gone), DoneAfter(policy, elements[i], done))
  {
    assert elements[..i + 1] == elements[..i] + [elements[i]];
  }

  lemma NextElement(policy: Policy, elements: seq<Node>, body: Node, nodes: set<Node>, i: nat,
                    gone: set<Node>, done: set<Node>)
    requires i < |elements| && IsSnapshot(elements, body, nodes)
    requires Seen(policy, elements[..i], gone, done)
    ensures elements[i] in nodes && elements[i] != body && elements[i] !in gone && elements[i] !in done
  {}

  /** What the loop needs to know of the document it starts from. */
  ghost predicate WellFormed(nodes: set<Node>, body: Node, d: Doc, homes: map<Node, Node?>) {
    && Shaped(d) && d.kids.Keys == homes.Keys == nodes && body in nodes
    && (forall n :: n in nodes ==> DistinctNames(d.attrs[n]) && body !in d.kids[n])
    && (forall n :: n in nodes && n != body ==> homes[n] != null && homes[n] in nodes && ChildOfOnly(d, n, homes[n]))
  }

  ghost function Homes(nodes: set<Node>): (homes: map<Node, Node?>)
    reads nodes
    ensures homes.Keys == nodes && forall n :: n in nodes ==> homes[n] == n.parentNode
  {
    map n | n in nodes :: n.parentNode
  }

  ghost predicate Rooted(nodes: set<Node>, body: Node)
    reads nodes
  {
    && Linked(nodes) && body in nodes
    && forall n :: n in nodes ==> (n.parentNode == null <==> n == body)
  }

  lemma OneParent(nodes: set<Node>, body: Node, d: Doc, n: Node)
    requires Rooted(nodes, body) && n in nodes && n != body
    requires d.kids.Keys == nodes && forall m :: m in nodes ==> d.kids[m] == m.childNodes
    ensures n.parentNode != null && n.parentNode in nodes && ChildOfOnly(d, n, n.parentNode)
  {}

  lemma StartsShaped(nodes: set<Node>, body: Node, d: Doc)
    requires Rooted(nodes, body) && d.kids.Keys == d.attrs.Keys == nodes
    requires forall m :: m in nodes ==> d.kids[m] == m.childNodes && d.attrs[m] == m.attributes
    ensures Shaped(d)
    ensures forall n :: n in nodes ==> DistinctNames(d.attrs[n]) && body !in d.kids[n]
  {}

  lemma StartsWellFormed(nodes: set<Node>, body: Node, d: Doc, homes: map<Node, Node?>)
    requires Rooted(nodes, body) && d == Snapshot(nodes) && homes == Homes(nodes)
    ensures WellFormed(nodes, body, d, homes)
  {
    StartsShaped(nodes, body, d);
    forall n | n in nodes && n != body
      ensures homes[n] != null && homes[n] in nodes && ChildOfOnly(d, n, homes[n])
    {
      OneParent(nodes, body, d, n);
    }
  }

  lemma StartsUnedited(policy: Policy, nodes: set<Node>, d: Doc, homes: map<Node, Node?>)
    requires d == Snapshot(nodes) && homes == Homes(nodes)
    ensures Edits(policy, nodes, d, homes, {}, {})
  {
    forall n | n in nodes ensures Without(d.kids[n], {}) == d.kids[n] {
      WithoutNone(d.kids[n]);
    }
  }

  lemma ReadyToVisit(policy: Policy, body: Node, el: Node, nodes: set<Node>, d: Doc, homes: map<Node, Node?>,
                     gone: set<Node>, done: set<Node>)
    requires WellFormed(nodes, body, d, homes) && el in nodes && el != body && el !in gone && el !in done
    requires Edits(policy, nodes, d, homes, gone, done)
    ensures DistinctNames(el.attributes)
    ensures el.parentNode != null && el.parentNode in nodes && ChildOfOnly(d, el, el.parentNode)
  {}

  ghost predicate Progress(policy: Policy, nodes: set<Node>, d: Doc, homes: map<Node, Node?>, seen: seq<Node>,
                           gone: set<Node>, done: set<Node>)
    reads nodes
  {
    Edits(policy, nodes, d, homes, gone, done) && Seen(policy, seen, gone, done)
  }

  /** One turn of the loop. */
  method VisitNext(policy: Policy, elements: seq<Node>, i: nat, ghost nodes: set<Node>, ghost body: Node,
                   ghost d: Doc, ghost homes: map<Node, Node?>, ghost gone: set<Node>, ghost done: set<Node>)
    requires i < |elements| && WellFormed(nodes, body, d, homes) && IsSnapshot(elements, body, nodes)
    requires Edits(policy, nodes, d, homes, gone, done) && Seen(policy, elements[..i], gone, done)
    modifies nodes
    ensures Edits(policy, nodes, d, homes, GoneAfter(policy, elements[i], gone), DoneAfter(policy, elements[i], done))
  {
    NextElement(policy, elements, body, nodes, i, gone, done);
    ReadyToVisit(policy, body, elements[i], nodes, d, homes, gone, done);
    Visit(policy, elements[i], nodes, d, homes, gone, done);
  }

  /** The loop: every element of the snapshot has been seen. */
  method VisitAll(policy: Policy, elements: seq<Node>, ghost nodes: set<Node>, ghost body: Node, ghost d: Doc,
                  ghost homes: map<Node, Node?>)
    returns (ghost gone: set<Node>, ghost done: set<Node>)
    requires WellFormed(nodes, body, d, homes) && IsSnapshot(elements, body, nodes)
    requires Progress(policy, nodes, d, homes, [], {}, {})
    modifies nodes
    ensures Progress(policy, nodes, d, homes, elements, gone, done)
  {
    gone, done := {}, {};
    assert elements[..0] == [];
    for i := 0 to |elements|
      invariant Progress(policy, nodes, d, homes, elements[..i], gone, done)
    {
      VisitNext(policy, elements, i, nodes, body, d, homes, gone, done);
      SeenNext(policy, elements, i, gone, done);
      gone, done := GoneAfter(policy, elements[i], gone), DoneAfter(policy, elements[i], done);
    }
    assert elements[..|elements|] == elements;
  }

  /**
   The sanitizer, for a document of any shape: in place it does exactly what Prune does to the forest of the body's
   children.
   */
  method SanitizeHtml(policy: Policy, body: Node, elements: seq<Node>, ghost nodes: set<Node>)
    requires Rooted(nodes, body) && IsSnapshot(elements, body, nodes)
    modifies nodes
    ensures Shaped(Snapshot(nodes)) && Shaped(old(Snapshot(nodes)))
    ensures Known(Snapshot(nodes), body.childNodes) && Known(old(Snapshot(nodes)), old(body.childNodes))
    ensures TreesOf(Snapshot(nodes), body.childNodes)
         == Prune(policy, TreesOf(old(Snapshot(nodes)), old(body.childNodes)))
  {
    ghost var d, homes := Snapshot(nodes), Homes(nodes);
    StartsWellFormed(nodes, body, d, homes);
    StartsUnedited(policy, nodes, d, homes);
    ghost var gone, done := VisitAll(policy, elements, nodes, body, d, homes);
    Outcome(policy, nodes, body, elements, d, homes, gone, done);
  }

  lemma Outcome(policy: Policy, nodes: set<Node>, body: Node, elements: seq<Node>, d: Doc, homes: map<Node, Node?>,
                gone: set<Node>, done: set<Node>)
    requires WellFormed(nodes, body, d, homes) && IsSnapshot(elements, body, nodes)
    requires Progress(policy, nodes, d, homes, elements, gone, done)
    ensures Shaped(Snapshot(nodes)) && Known(Snapshot(nodes), body.childNodes) && Known(d, d.kids[body])
    ensures TreesOf(Snapshot(nodes), body.childNodes) == Prune(policy, TreesOf(d, d.kids[body]))
  {
    Finished(policy, body, elements, d, Snapshot(nodes), gone, done);
  }

  lemma Finished(policy: Policy, body: Node, elements: seq<Node>, d: Doc, d': Doc, gone: set<Node>, done: set<Node>)
    requires Shaped(d) && d.kids.Keys == d'.kids.Keys == d'.attrs.Keys && body in d.kids
    requires IsSnapshot(elements, body, d.kids.Keys) && Seen(policy, elements, gone, done)
    requires forall n :: n in d.kids ==> d'.kids[n] == Without(d.kids[n], gone) && body !in d.kids[n]
    requires forall n :: n in d.attrs ==> d'.attrs[n] == Filtered(policy, d, done, n)
    ensures Shaped(d') && Known(d', d'.kids[body]) && Known(d, d.kids[body])
    ensures TreesOf(d', d'.kids[body]) == Prune(policy, TreesOf(d, d.kids[body]))
  {
    forall n, c | n in d.kids && c in d.kids[n] && c in d.attrs
      ensures ChildEdited(policy, d, d', gone, c)
    {
      assert c in d.kids && c != body;
    }
    EditedShaped(policy, d, d', gone);
    EditedIsPruned(policy, d, d', gone, body, d.kids[body]);
  }
}
