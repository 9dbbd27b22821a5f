/** `_add_child_bullets`: the nested `<ul class='package-hierarchy'>` list
    that renders a package tree. The output is described as a stream of
    tokens (an opening list tag, one `<li>` line per child, a closing list
    tag) whose texts, concatenated, are the HTML. */
module Render {
  import opened Host
  import opened Titles
  import opened Tree

  datatype Token = OpenList | Entry(href: string, caption: string) | CloseList

  const ListOpen := "<ul class='package-hierarchy'>\n"
  const ListClose := "</ul>\n"

  function Text(tok: Token): string {
    match tok
    case OpenList => ListOpen
    case Entry(href, caption) => "<li><a href='" + href + "'>" + caption + "</a></li>\n"
    case CloseList => ListClose
  }

  function Flatten(ts: seq<Token>): string {
    if ts == [] then "" else Flatten(ts[..|ts| - 1]) + Text(ts[|ts| - 1])
  }

  lemma {:induction false} FlattenConcat(a: seq<Token>, b: seq<Token>)
    ensures Flatten(a + b) == Flatten(a) + Flatten(b)
    decreases |b|
  {
    if b != [] {
      var b' := b[..|b| - 1];
      assert (a + b)[..|a + b| - 1] == a + b';
      assert (a + b)[|a + b| - 1] == b[|b| - 1];
      FlattenConcat(a, b');
      Associative(Flatten(a), Flatten(b'), Text(b[|b| - 1]));
    } else {
      assert a + b == a;
    }
  }

  lemma Associative(x: string, y: string, z: string)
    ensures x + y + z == x + (y + z)
  {
  }

  /** The `<li>` line of a child: a link to `package_link + name`, labelled
      with the title's text after its last '/'. */
  function EntryFor(link: string, c: Tree): Token {
    Entry(link + c.pkg.name, Label(c.pkg.title))
  }

  /** The list for `t`: its children in title order, each as its `<li>`
      line followed by the child's own (possibly empty) list. */
  function Tokens(link: string, t: Tree): seq<Token>
    decreases t, 1, 0
  {
    SortByTitleMembers(t.children);
    [OpenList] + Entries(link, SortByTitle(t.children), t) + [CloseList]
  }

  function Entries(link: string, cs: seq<Tree>, parent: Tree): seq<Token>
    requires forall c :: c in cs ==> c in parent.children
    decreases parent, 0, |cs|
  {
    if cs == [] then []
    else
      var c := cs[|cs| - 1];
      assert c in parent.children;
      Entries(link, cs[..|cs| - 1], parent) + [EntryFor(link, c)] + Tokens(link, c)
  }

  /** `_add_child_bullets(html, pkg)` appends the list for `pkg` to `html`. */
  method AddChildBullets(html: string, link: string, pkg: Tree) returns (out: string)
    ensures out == html + Flatten(Tokens(link, pkg))
    decreases pkg
  {
    out := html + ListOpen;
    var kids := SortByTitle(pkg.children);
    SortByTitleMembers(pkg.children);
    assert Flatten([OpenList]) == ListOpen;
    for i := 0 to |kids|
      invariant out == html + Flatten([OpenList] + Entries(link, kids[..i], pkg))
    {
      var child := kids[i];
      assert child in pkg.children;
      var caption := Label(child.pkg.title);
      var href := link + child.pkg.name;
      var line := "<li><a href='" + href + "'>" + caption + "</a></li>\n";
      ghost var before := out;
      out := AddChildBullets(out + line, link, child);
      BulletStep(html, before, line, link, kids, i, pkg);
    }
    assert kids[..|kids|] == kids;
    FlattenConcat([OpenList] + Entries(link, kids, pkg), [CloseList]);
    out := out + ListClose;
  }

  /** The loop step of `_add_child_bullets`, on the strings it builds. */
  lemma BulletStep(html: string, before: string, line: string, link: string, kids: seq<Tree>, i: nat, parent: Tree)
    requires i < |kids|
    requires forall c :: c in kids ==> c in parent.children
    requires before == html + Flatten([OpenList] + Entries(link, kids[..i], parent))
    requires line == "<li><a href='" + (link + kids[i].pkg.name) + "'>" + Label(kids[i].pkg.title) + "</a></li>\n"
    ensures before + line + Flatten(Tokens(link, kids[i]))
         == html + Flatten([OpenList] + Entries(link, kids[..i + 1], parent))
  {
    assert line == Text(EntryFor(link, kids[i]));
    EntriesStepText(link, kids, i, parent);
    var pre := Flatten([OpenList] + Entries(link, kids[..i], parent));
    var sub := Flatten(Tokens(link, kids[i]));
    calc {
      before + line + sub;
      (html + pre) + line + sub;
      { Associative(html, pre, line); }
      html + (pre + line) + sub;
      { Associative(html, pre + line, sub); }
      html + (pre + line + sub);
    }
  }

  /** One more child in the loop of `_add_child_bullets`: its `<li>` line and
      then its own list. */
  lemma EntriesStepText(link: string, kids: seq<Tree>, i: nat, parent: Tree)
    requires i < |kids|
    requires forall c :: c in kids ==> c in parent.children
    ensures Flatten([OpenList] + Entries(link, kids[..i + 1], parent))
         == Flatten([OpenList] + Entries(link, kids[..i], parent)) + Text(EntryFor(link, kids[i]))
            + Flatten(Tokens(link, kids[i]))
  {
    assert kids[..i + 1][..i] == kids[..i];
    var pre := [OpenList] + Entries(link, kids[..i], parent);
    var e := EntryFor(link, kids[i]);
    assert [OpenList] + Entries(link, kids[..i + 1], parent) == pre + [e] + Tokens(link, kids[i]);
    FlattenConcat(pre + [e], Tokens(link, kids[i]));
    FlattenConcat(pre, [e]);
    assert Flatten([e]) == Text(e) by {
      assert [e][..0] == [];
    }
  }

  // ---- Tag balance

  function Delta(tok: Token): int {
    match tok
    case OpenList => 1
    case CloseList => -1
    case Entry(_, _) => 0
  }

  /** How many lists are open after the tokens `ts`. */
  function Depth(ts: seq<Token>): int {
    if ts == [] then 0 else Depth(ts[..|ts| - 1]) + Delta(ts[|ts| - 1])
  }

  /** No list is closed before it is opened, and all are closed at the end. */
  ghost predicate Balanced(ts: seq<Token>) {
    Depth(ts) == 0 && forall k :: 0 <= k <= |ts| ==> Depth(ts[..k]) >= 0
  }

  /** One list, opened first and closed last, with everything inside it. */
  ghost predicate Block(ts: seq<Token>) {
    && |ts| >= 2 && ts[0] == OpenList && ts[|ts| - 1] == CloseList
    && Balanced(ts)
    && forall k :: 0 < k < |ts| ==> Depth(ts[..k]) >= 1
  }

  lemma {:induction false} DepthConcat(a: seq<Token>, b: seq<Token>)
    ensures Depth(a + b) == Depth(a) + Depth(b)
    decreases |b|
  {
    if b != [] {
      assert (a + b)[..|a + b| - 1] == a + b[..|b| - 1];
      assert (a + b)[|a + b| - 1] == b[|b| - 1];
      DepthConcat(a, b[..|b| - 1]);
    } else {
      assert a + b == a;
    }
  }

  lemma BalancedConcat(a: seq<Token>, b: seq<Token>)
    requires Balanced(a) && Balanced(b)
    ensures Balanced(a + b)
  {
    DepthConcat(a, b);
    forall k | 0 <= k <= |a + b| ensures Depth((a + b)[..k]) >= 0 {
      if k <= |a| {
        assert (a + b)[..k] == a[..k];
      } else {
        assert (a + b)[..k] == a + b[..k - |a|];
        DepthConcat(a, b[..k - |a|]);
      }
    }
  }

  /** Wrapping balanced tokens in a list tag pair gives one block. */
  lemma Wrap(e: seq<Token>)
    requires Balanced(e)
    ensures Block([OpenList] + e + [CloseList])
  {
    var ts := [OpenList] + e + [CloseList];
    DepthConcat([OpenList] + e, [CloseList]);
    DepthConcat([OpenList], e);
    assert Depth([OpenList]) == 1;
    forall k | 0 < k < |ts| ensures Depth(ts[..k]) >= 1 {
      assert ts[..k] == [OpenList] + e[..k - 1];
      DepthConcat([OpenList], e[..k - 1]);
    }
    assert ts[..|ts|] == ts;
    assert ts[..0] == [];
  }

  /** An entry line is balanced on its own. */
  lemma EntryBalanced(tok: Token)
    requires tok.Entry?
    ensures Balanced([tok])
  {
    assert [tok][..0] == [] && [tok][..1] == [tok];
  }

  /** The list for any tree is a single balanced block: `<ul>`/`</ul>` pair
      up, with one pair around everything. */
  lemma {:induction false} TokensBlock(link: string, t: Tree)
    ensures Block(Tokens(link, t))
    decreases t, 1, 0
  {
    SortByTitleMembers(t.children);
    EntriesBalanced(link, SortByTitle(t.children), t);
    Wrap(Entries(link, SortByTitle(t.children), t));
  }

  lemma {:induction false} EntriesBalanced(link: string, cs: seq<Tree>, parent: Tree)
    requires forall c :: c in cs ==> c in parent.children
    ensures Balanced(Entries(link, cs, parent))
    decreases parent, 0, |cs|
  {
    if cs == [] {
      assert Entries(link, cs, parent)[..0] == [];
    } else {
      var c := cs[|cs| - 1];
      assert c in parent.children;
      EntriesBalanced(link, cs[..|cs| - 1], parent);
      EntryBalanced(EntryFor(link, c));
      TokensBlock(link, c);
      BalancedConcat(Entries(link, cs[..|cs| - 1], parent), [EntryFor(link, c)]);
      BalancedConcat(Entries(link, cs[..|cs| - 1], parent) + [EntryFor(link, c)], Tokens(link, c));
    }
  }

  // ---- Every <li> is followed by a nested list

  /** Every `<li>` token that has a successor is followed by a list. */
  ghost predicate NestedWithin(ts: seq<Token>) {
    forall i :: 0 <= i < |ts| - 1 && ts[i].Entry? ==> ts[i + 1] == OpenList
  }

  ghost predicate EntriesNested(ts: seq<Token>) {
    forall i :: 0 <= i < |ts| && ts[i].Entry? ==> i + 1 < |ts| && ts[i + 1] == OpenList
  }

  lemma NestedConcat(a: seq<Token>, b: seq<Token>)
    requires NestedWithin(a) && NestedWithin(b)
    requires a != [] && a[|a| - 1].Entry? ==> b != [] && b[0] == OpenList
    ensures NestedWithin(a + b)
  {
    var ab := a + b;
    forall i | 0 <= i < |ab| - 1 && ab[i].Entry? ensures ab[i + 1] == OpenList {
      if i < |a| - 1 {
        assert ab[i] == a[i] && ab[i + 1] == a[i + 1];
      } else if i == |a| - 1 {
        assert a[|a| - 1].Entry?;
        assert ab[i + 1] == b[0];
      } else {
        assert ab[i] == b[i - |a|] && ab[i + 1] == b[i + 1 - |a|];
      }
    }
  }

  /** Every `<li>` line is followed by the child's own list, so even a leaf
      child gets an (empty) nested `<ul>`. */
  lemma TokensNested(link: string, t: Tree)
    ensures EntriesNested(Tokens(link, t))
  {
    TokensNestedWithin(link, t);
  }

  lemma {:induction false} TokensNestedWithin(link: string, t: Tree)
    ensures NestedWithin(Tokens(link, t))
    ensures Tokens(link, t)[0] == OpenList
    ensures Tokens(link, t)[|Tokens(link, t)| - 1] == CloseList
    decreases t, 1, 0
  {
    SortByTitleMembers(t.children);
    var e := Entries(link, SortByTitle(t.children), t);
    EntriesNestedWithin(link, SortByTitle(t.children), t);
    NestedConcat([OpenList], e);
    NestedConcat([OpenList] + e, [CloseList]);
  }

  lemma {:induction false} EntriesNestedWithin(link: string, cs: seq<Tree>, parent: Tree)
    requires forall c :: c in cs ==> c in parent.children
    ensures NestedWithin(Entries(link, cs, parent))
    ensures Entries(link, cs, parent) != [] ==> Entries(link, cs, parent)[|Entries(link, cs, parent)| - 1] == CloseList
    decreases parent, 0, |cs|
  {
    if cs != [] {
      var c := cs[|cs| - 1];
      assert c in parent.children;
      var pre := Entries(link, cs[..|cs| - 1], parent);
      var e := EntryFor(link, c);
      EntriesNestedWithin(link, cs[..|cs| - 1], parent);
      TokensNestedWithin(link, c);
      NestedConcat([e], Tokens(link, c));
      NestedConcat(pre, [e] + Tokens(link, c));
      assert pre + [e] + Tokens(link, c) == pre + ([e] + Tokens(link, c));
    }
  }

  /** A package without children renders as an empty list. */
  lemma LeafList(link: string, p: Package)
    ensures Flatten(Tokens(link, Node(p, []))) == ListOpen + ListClose
  {
    assert Tokens(link, Node(p, [])) == [OpenList, CloseList];
    assert [OpenList, CloseList][..1] == [OpenList];
  }

  /** The rendering of any tree starts with the opening list tag, so it is
      never the empty string. */
  lemma TokensText(link: string, t: Tree)
    ensures |Flatten(Tokens(link, t))| >= |ListOpen|
    ensures Flatten(Tokens(link, t))[..|ListOpen|] == ListOpen
  {
    SortByTitleMembers(t.children);
    var rest := Entries(link, SortByTitle(t.children), t) + [CloseList];
    assert Tokens(link, t) == [OpenList] + rest;
    FlattenConcat([OpenList], rest);
    assert Flatten([OpenList]) == ListOpen;
  }

  /** The body of `get_package_tree` on a cache miss: build the tree below
      `pkg` within Python's recursion limit and render it when it has
      children; anything raised on the way, and a package without
      children, give ''. */
  function RenderTree(list: Lister, link: string, pkg: Package): string {
    match ChildTree(list, pkg, RecursionLimit)
    case Raised(_) => ""
    case Ok(t) => if t.children == [] then "" else Flatten(Tokens(link, t))
  }

  /** The rendered tree is empty exactly when the build raised or the
      package has no children; otherwise it is one list opening with the
      list tag. */
  lemma RenderTreeEmpty(list: Lister, link: string, pkg: Package)
    ensures RenderTree(list, link, pkg) == "" <==>
      ChildTree(list, pkg, RecursionLimit).Raised? || list(pkg.id) == Ok([])
    ensures RenderTree(list, link, pkg) != "" ==>
      |RenderTree(list, link, pkg)| >= |ListOpen| && RenderTree(list, link, pkg)[..|ListOpen|] == ListOpen
  {
    var b := ChildTree(list, pkg, RecursionLimit);
    if b.Ok? {
      ChildTreeIsBuilt(list, pkg, RecursionLimit);
      TokensText(link, b.value);
    }
  }

  /** A package with two leaf children titled "x/B" and "C": "C" comes
      first, since 'C' precedes 'x'; each link is labelled with the title's
      last segment and followed by the child's own, empty, list. */
  lemma TwoChildExample(link: string, a: Package)
    ensures
      var b := Node(Package("b", "B", "x/B", 0), []);
      var c := Node(Package("c", "C", "C", 0), []);
      Tokens(link, Node(a, [b, c])) ==
        [OpenList, Entry(link + "C", "C"), OpenList, CloseList,
         Entry(link + "B", "B"), OpenList, CloseList, CloseList]
  {
    var b := Node(Package("b", "B", "x/B", 0), []);
    var c := Node(Package("c", "C", "C", 0), []);
    var t := Node(a, [b, c]);
    ExampleOrder(b, c);
    ExampleLabels();
    var eb := EntryFor(link, b);
    var ec := EntryFor(link, c);
    assert Tokens(link, b) == [OpenList, CloseList];
    assert Tokens(link, c) == [OpenList, CloseList];
    assert [c, b][..1] == [c] && [c][..0] == [];
    assert Entries(link, [c], t) == [ec, OpenList, CloseList];
    assert Entries(link, [c, b], t) == [ec, OpenList, CloseList, eb, OpenList, CloseList];
  }

  lemma ExampleOrder(b: Tree, c: Tree)
    requires b.pkg.title == "x/B" && c.pkg.title == "C"
    ensures SortByTitle([b, c]) == [c, b]
  {
    assert !Le("x/B", "C");
    assert [b, c][1..] == [c];
    assert SortByTitle([c]) == [c];
  }

  lemma ExampleLabels()
    ensures Label("x/B") == "B" && Label("C") == "C"
  {
    assert "x/B"[..2] == "x/";
    assert "x/"[..1] == "x";
    DropLineIsEmpty("x");
    LabelOfPlainTitle("C");
  }
}
