/**
 What is left of a sanitized document, said of the document and the whitelist alone: which elements and texts, which
 attributes of them, and in what order.
 */
module HtmlSafety {
  import opened HtmlSanitizer
  import opened Sequences

  // ---------------------------------------------------------------- names and attributes

  /** The attributes whose value is a URL. */
  predicate HoldsUrl(name: string) {
    || name == "background" || name == "cite" || name == "href" || name == "itemtype"
    || name == "longdesc" || name == "poster" || name == "src" || name == "xlink:href"
  }

  lemma UrlNames(name: string)
    ensures HoldsUrl(name) <==> name in URI_ATTRS
  {}

  const CAPITALS := "ABCDEFGHIJKLMNOPQRSTUVWXYZ"
  const SMALL := "abcdefghijklmnopqrstuvwxyz"

  lemma LetterAt(j: nat)
    requires j < 26
    ensures CAPITALS[j] as int == 65 + j && SMALL[j] as int == 97 + j
  {}

  /** A capital becomes the small letter at its place in the alphabet; nothing else changes. */
  lemma ToLowerLetters(s: string, k: nat, j: nat)
    requires k < |s| && j < 26
    ensures |ToLower(s)| == |s|
    ensures s[k] == CAPITALS[j] ==> ToLower(s)[k] == SMALL[j]
    ensures s[k] !in CAPITALS ==> ToLower(s)[k] == s[k]
  {
    LetterAt(j);
    if 'A' <= s[k] <= 'Z' {
      LetterAt(s[k] as int - 65);
    }
  }

  /** The entry is listed for all elements, or for those of this name. */
  predicate Grants(policy: Policy, nodeName: string, entry: Entry) {
    || ("*" in policy.whitelist && entry in policy.whitelist["*"])
    || (ToLower(nodeName) in policy.whitelist && entry in policy.whitelist[ToLower(nodeName)])
  }

  /** A URL attribute listed by name needs a safe URL; another listed name will do; otherwise a pattern must match. */
  ghost predicate SafeAttr(policy: Policy, nodeName: string, attr: Attr) {
    var name := ToLower(attr.nodeName);
    if Grants(policy, nodeName, Name(name)) then HoldsUrl(name) ==> policy.safeUrl(attr.nodeValue)
    else exists regExp :: Grants(policy, nodeName, Pattern(regExp)) && policy.matches(regExp, name)
  }

  /** What the loop over an element's attributes allows is what is safe for the element. */
  lemma AllowedIsSafe(policy: Policy, nodeName: string, attr: Attr)
    ensures Allowed(policy, attr, ListFor(policy, nodeName)) <==> SafeAttr(policy, nodeName, attr)
  {
    var list, name := ListFor(policy, nodeName), ToLower(attr.nodeName);
    UrlNames(name);
    Granted(policy, nodeName, Name(name));
    if Name(name) !in list {
      forall regExp ensures Grants(policy, nodeName, Pattern(regExp)) <==> Pattern(regExp) in list {
        Granted(policy, nodeName, Pattern(regExp));
      }
      PatternAt(policy, list, name);
    }
  }

  lemma Granted(policy: Policy, nodeName: string, entry: Entry)
    ensures Grants(policy, nodeName, entry) <==> entry in ListFor(policy, nodeName)
  {}

  lemma PatternAt(policy: Policy, list: seq<Entry>, name: string)
    ensures (exists i :: 0 <= i < |list| && list[i].Pattern? && policy.matches(list[i].regExp, name))
       <==> (exists regExp :: Pattern(regExp) in list && policy.matches(regExp, name))
  {
    if i :| 0 <= i < |list| && list[i].Pattern? && policy.matches(list[i].regExp, name) {
      assert Pattern(list[i].regExp) in list;
    }
    if regExp :| Pattern(regExp) in list && policy.matches(regExp, name) {
      var i :| 0 <= i < |list| && list[i] == Pattern(regExp);
      assert list[i].Pattern? && policy.matches(list[i].regExp, name);
    }
  }

  // ---------------------------------------------------------------- a document in order

  /** What a document holds, in document order, each with the names of the elements it is in. */
  datatype Item =
    | Opens(trail: seq<string>)
    | Has(trail: seq<string>, attr: Attr)
    | Says(trail: seq<string>, text: string)

  function Items(forest: seq<Tree>, trail: seq<string>): seq<Item> {
    if forest == [] then [] else ItemsOf(forest[0], trail) + Items(forest[1..], trail)
  }

  function ItemsOf(tree: Tree, trail: seq<string>): seq<Item> {
    match tree
    case Text(text) => [Says(trail, text)]
    case Element(name, attrs, children) =>
      [Opens(trail + [name])] + (AttrItems(attrs, trail + [name]) + Items(children, trail + [name]))
  }

  function AttrItems(attrs: seq<Attr>, trail: seq<string>): seq<Item> {
    if attrs == [] then [] else [Has(trail, attrs[0])] + AttrItems(attrs[1..], trail)
  }

  predicate Whitelisted(policy: Policy, trail: seq<string>) {
    forall name :: name in trail ==> ToLower(name) in policy.whitelist
  }

  /** All the elements it is in are whitelisted and, if it is an attribute, it is safe for its element. */
  ghost predicate Survives(policy: Policy, item: Item) {
    && Whitelisted(policy, item.trail)
    && (item.Has? ==> item.trail != [] && SafeAttr(policy, item.trail[|item.trail| - 1], item.attr))
  }

  ghost function Surviving(policy: Policy, items: seq<Item>): (kept: seq<Item>)
    ensures forall item :: item in kept <==> item in items && Survives(policy, item)
  {
    if items == [] then []
    else (if Survives(policy, items[0]) then [items[0]] else []) + Surviving(policy, items[1..])
  }

  lemma {:induction false} SurvivingPlus(policy: Policy, a: seq<Item>, b: seq<Item>)
    ensures Surviving(policy, a + b) == Surviving(policy, a) + Surviving(policy, b)
  {
    if a == [] {
      assert a + b == b;
    } else {
      assert (a + b)[1..] == a[1..] + b;
      SurvivingPlus(policy, a[1..], b);
    }
  }

  lemma {:induction false} AttrItemsPlus(a: seq<Attr>, b: seq<Attr>, trail: seq<string>)
    ensures AttrItems(a + b, trail) == AttrItems(a, trail) + AttrItems(b, trail)
  {
    if a == [] {
      assert a + b == b;
    } else {
      assert (a + b)[1..] == a[1..] + b;
      AttrItemsPlus(a[1..], b, trail);
    }
  }

  lemma {:induction false} ItemsPlus(a: seq<Tree>, b: seq<Tree>, trail: seq<string>)
    ensures Items(a + b, trail) == Items(a, trail) + Items(b, trail)
  {
    if a == [] {
      assert a + b == b;
    } else {
      assert (a + b)[1..] == a[1..] + b;
      ItemsPlus(a[1..], b, trail);
    }
  }

  // ---------------------------------------------------------------- nothing below an unlisted element survives

  lemma {:induction false} AttrsBelow(attrs: seq<Attr>, trail: seq<string>)
    ensures forall item :: item in AttrItems(attrs, trail) ==> trail <= item.trail
  {
    if attrs != [] {
      AttrsBelow(attrs[1..], trail);
    }
  }

  lemma {:induction false} ItemsBelow(forest: seq<Tree>, trail: seq<string>)
    ensures forall item :: item in Items(forest, trail) ==> trail <= item.trail
  {
    if forest != [] {
      TreeBelow(forest[0], trail);
      ItemsBelow(forest[1..], trail);
    }
  }

  lemma {:induction false} TreeBelow(tree: Tree, trail: seq<string>)
    ensures forall item :: item in ItemsOf(tree, trail) ==> trail <= item.trail
  {
    if tree.Element? {
      var inner := trail + [tree.nodeName];
      AttrsBelow(tree.attrs, inner);
      ItemsBelow(tree.children, inner);
      assert trail <= inner;
      assert forall item :: item in ItemsOf(tree, trail) ==> inner <= item.trail;
    }
  }

  lemma NoneSurvives(policy: Policy, items: seq<Item>, trail: seq<string>)
    requires !Whitelisted(policy, trail) && forall item :: item in items ==> trail <= item.trail
    ensures Surviving(policy, items) == []
  {
    var name :| name in trail && ToLower(name) !in policy.whitelist;
    forall item | item in items ensures !Survives(policy, item) {
      assert name in item.trail;
    }
    NoneLeft(policy, items);
  }

  lemma {:induction false} NoneLeft(policy: Policy, items: seq<Item>)
    requires forall item :: item in items ==> !Survives(policy, item)
    ensures Surviving(policy, items) == []
  {
    if items != [] {
      NoneLeft(policy, items[1..]);
    }
  }

  // ---------------------------------------------------------------- exactly the surviving items are left

  lemma {:induction false} AttrsSurviving(policy: Policy, attrs: seq<Attr>, trail: seq<string>, name: string)
    requires Whitelisted(policy, trail + [name])
    ensures AttrItems(KeepAllowed(policy, attrs, ListFor(policy, name)), trail + [name])
         == Surviving(policy, AttrItems(attrs, trail + [name]))
  {
    if attrs != [] {
      var inner, list := trail + [name], ListFor(policy, name);
      AttrsSurviving(policy, attrs[1..], trail, name);
      AllowedIsSafe(policy, name, attrs[0]);
      AttrItemsPlus(if Allowed(policy, attrs[0], list) then [attrs[0]] else [], KeepAllowed(policy, attrs[1..], list),
                    inner);
      OneAttr(attrs[0], inner);
      assert inner[|inner| - 1] == name;
      assert AttrItems(attrs, inner)[1..] == AttrItems(attrs[1..], inner);
    }
  }

  lemma OneAttr(attr: Attr, trail: seq<string>)
    ensures AttrItems([attr], trail) == [Has(trail, attr)]
  {
    assert [attr][1..] == [];
  }

  /**
   Sanitizing leaves exactly what survives, in document order: each element and text whose elements are all
   whitelisted, each with its safe attributes, and nothing else.
   */
  lemma {:induction false} PruneKeepsSurviving(policy: Policy, forest: seq<Tree>, trail: seq<string>)
    requires Whitelisted(policy, trail)
    ensures Items(Prune(policy, forest), trail) == Surviving(policy, Items(forest, trail))
  {
    if forest != [] {
      TreeKeepsSurviving(policy, forest[0], trail);
      PruneKeepsSurviving(policy, forest[1..], trail);
      ItemsPlus(PruneTree(policy, forest[0]), Prune(policy, forest[1..]), trail);
      SurvivingPlus(policy, ItemsOf(forest[0], trail), Items(forest[1..], trail));
    }
  }

  lemma {:induction false} TreeKeepsSurviving(policy: Policy, tree: Tree, trail: seq<string>)
    requires Whitelisted(policy, trail)
    ensures Items(PruneTree(policy, tree), trail) == Surviving(policy, ItemsOf(tree, trail))
  {
    match tree
    case Text(text) =>
      assert Survives(policy, Says(trail, text));
    case Element(name, attrs, children) =>
      var inner := trail + [name];
      if ToLower(name) in policy.whitelist {
        var opens := Opens(inner);
        AttrsSurviving(policy, attrs, trail, name);
        PruneKeepsSurviving(policy, children, inner);
        SurvivingPlus(policy, AttrItems(attrs, inner), Items(children, inner));
        SurvivingPlus(policy, [opens], AttrItems(attrs, inner) + Items(children, inner));
        assert Survives(policy, opens);
        assert Surviving(policy, [opens]) == [opens];
      } else {
        assert name in inner;
        AttrsBelow(attrs, inner);
        ItemsBelow(children, inner);
        NoneSurvives(policy, ItemsOf(tree, trail), inner);
      }
  }

  /** Nothing is taken out or filtered exactly when everything in the document survives. */
  lemma UnchangedIffAllSurvive(policy: Policy, forest: seq<Tree>)
    ensures Prune(policy, forest) == forest <==> forall item :: item in Items(forest, []) ==> Survives(policy, item)
  {
    PruneKeepsSurviving(policy, forest, []);
    if forall item :: item in Items(forest, []) ==> Survives(policy, item) {
      SafeIsClean(policy, forest, []);
      PruneKeepsExactlyClean(policy, forest);
    }
  }

  lemma {:induction false} AttrItemsAt(attrs: seq<Attr>, trail: seq<string>, attr: Attr)
    requires attr in attrs
    ensures Has(trail, attr) in AttrItems(attrs, trail)
  {
    if attrs[0] != attr {
      AttrItemsAt(attrs[1..], trail, attr);
    }
  }

  lemma {:induction false} SafeIsClean(policy: Policy, forest: seq<Tree>, trail: seq<string>)
    requires forall item :: item in Items(forest, trail) ==> Survives(policy, item)
    ensures Clean(policy, forest)
  {
    if forest != [] {
      SafeIsCleanTree(policy, forest[0], trail);
      SafeIsClean(policy, forest[1..], trail);
    }
  }

  lemma {:induction false} SafeIsCleanTree(policy: Policy, tree: Tree, trail: seq<string>)
    requires forall item :: item in ItemsOf(tree, trail) ==> Survives(policy, item)
    ensures CleanTree(policy, tree)
  {
    if tree.Element? {
      var inner := trail + [tree.nodeName];
      assert Opens(inner) in ItemsOf(tree, trail) && tree.nodeName in inner;
      forall attr | attr in tree.attrs ensures Allowed(policy, attr, ListFor(policy, tree.nodeName)) {
        AttrItemsAt(tree.attrs, inner, attr);
        assert Has(inner, attr) in ItemsOf(tree, trail);
        AllowedIsSafe(policy, tree.nodeName, attr);
      }
      SafeIsClean(policy, tree.children, inner);
    }
  }
}
