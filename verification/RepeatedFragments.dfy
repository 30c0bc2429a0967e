/** Fragment lists expanded to representative items (packages/compiler/src/repeated-fragments.ts, compiler.ts). */
module RepeatedFragments {
  import opened Text
  import opened Scanner
  import opened TemplateLaws
  import opened Operands
  import opened Structural
  import opened StructuralLaws

  const SEPARATOR: Text := [0x2C, 0x20]

  /** What an interpolation turns out to hold: a value, a list of fragments, or a list that cannot be used. */
  datatype Discovery =
    | Value
    | Unusable
    | Fragments(dynamic: bool, representativeItems: nat, elements: seq<Operand>, start: nat, end: nat)

  datatype Site = Site(
    start: nat, end: nat, sqlStart: nat, sqlEnd: nat, dynamic: bool, representativeItems: nat,
    element: ExtractedQuery, parameterOffset: nat)

  datatype Expansion = Expansion(query: ExtractedQuery, sites: seq<Site>, fragments: seq<Placed>, tooLong: nat)

  datatype Lists = Lists(source: Text, tagName: Text, template: Template, discoveries: seq<Discovery>,
                         placeholder: Placeholder, maximumItems: nat, representative: Option<nat>)
  {
    predicate Valid() {
      && |discoveries| == |template.segments|
      && (forall k :: 0 <= k < |discoveries| && discoveries[k].Fragments? ==> discoveries[k].elements != [])
      && Unusable !in discoveries
    }

    function ItemCount(d: Discovery): nat
      requires d.Fragments?
    {
      if d.dynamic then DynamicItems(d) else |d.elements|
    }

    function DynamicItems(d: Discovery): nat
      requires d.Fragments?
    {
      if representative.Some? then representative.value else d.representativeItems
    }

    function LexItem(operand: Operand): Option<Lexed> {
      if operand.Empty? then None else Lex(source, operand.backtick + 1)
    }

    function ExtractItem(operand: Operand, offset: nat): Option<ExtractedQuery> {
      if operand.Empty? then None
      else Extract(source, tagName + DOT_FRAGMENT, operand.start, operand.backtick, placeholder, offset)
    }
  }

  // ---------------------------------------------------------------------------
  // The specification: one template with the items written in place
  // ---------------------------------------------------------------------------

  function ItemOperand(d: Discovery, i: nat): Operand
    requires d.Fragments? && d.elements != [] && (d.dynamic || i < |d.elements|)
  {
    d.elements[if d.dynamic then 0 else i]
  }

  function LiteralTemplate(literal: Mapped): Template {
    Template(literal, [])
  }

  /** The template with the first `n` items of a list appended, a separator in front of all but the first. */
  function WithItems(lists: Lists, d: Discovery, t: Template, n: nat): Template
    requires d.Fragments? && d.elements != [] && (d.dynamic || n <= |d.elements|)
  {
    if n == 0 then t
    else
      var before := WithItems(lists, d, t, n - 1);
      match lists.LexItem(ItemOperand(d, n - 1))
      case None => before
      case Some(lexed) =>
        Join(if n > 1 then Join(before, LiteralTemplate(Mark(SEPARATOR, d.start))) else before, lexed.template)
  }

  function ItemFragments(lists: Lists, d: Discovery, t: Template, n: nat): seq<Placed>
    requires d.Fragments? && d.elements != [] && (d.dynamic || n <= |d.elements|)
  {
    if n == 0 then []
    else
      var count := |WithItems(lists, d, t, n - 1).segments|;
      match lists.ExtractItem(ItemOperand(d, n - 1), count)
      case None => ItemFragments(lists, d, t, n - 1)
      case Some(query) => ItemFragments(lists, d, t, n - 1) + [Placed(query, count)]
  }

  /** The other callback paths of a dynamic list, as they would look in its place. */
  function Alternatives(lists: Lists, d: Discovery, offset: nat, n: nat): seq<Placed>
    requires d.Fragments? && 1 <= n <= |d.elements|
  {
    if n == 1 then []
    else
      match lists.ExtractItem(d.elements[n - 1], offset)
      case None => Alternatives(lists, d, offset, n - 1)
      case Some(query) => Alternatives(lists, d, offset, n - 1) + [Placed(query, offset)]
  }

  datatype Progress = Progress(template: Template, interpolations: seq<Interpolation>, sites: seq<Site>,
                               fragments: seq<Placed>, tooLong: nat)

  function SqlLength(lists: Lists, t: Template): nat {
    |Render(t, lists.placeholder, 0)|
  }

  function WithList(lists: Lists, p: Progress, d: Discovery): Progress
    requires d.Fragments? && d.elements != []
  {
    var n := lists.ItemCount(d);
    if n > lists.maximumItems then p.(tooLong := p.tooLong + 1)
    else
      var offset := |p.template.segments|;
      var t := WithItems(lists, d, p.template, n);
      var items := ItemFragments(lists, d, p.template, n);
      var others := if d.dynamic then Alternatives(lists, d, offset, |d.elements|) else [];
      p.(template := t, fragments := p.fragments + items + others,
         sites := if items == [] then p.sites
                  else p.sites + [Site(d.start, d.end, SqlLength(lists, p.template), SqlLength(lists, t), d.dynamic,
                                       lists.DynamicItems(d), items[0].query, offset)])
  }

  function WithValue(lists: Lists, p: Progress, hole: Hole): Progress {
    var count := |p.template.segments| + 1;
    var sqlStart := SqlLength(lists, p.template);
    p.(template := Join(p.template, Template([], [Segment(hole, [])])),
       interpolations := p.interpolations + [Described(count, hole, sqlStart, sqlStart + |lists.placeholder(count)|)])
  }

  /** The literal part before interpolation `k`, then the interpolation. */
  function WithInterpolation(lists: Lists, before: Progress, k: nat): Progress
    requires lists.Valid() && k < |lists.discoveries|
  {
    var p := before.(template := Join(before.template, LiteralTemplate(Literal(lists.template, k))));
    if lists.discoveries[k].Value? then WithValue(lists, p, lists.template.segments[k].hole)
    else WithList(lists, p, lists.discoveries[k])
  }

  function ExpandedFirst(lists: Lists, k: nat): Progress
    requires lists.Valid() && k <= |lists.discoveries|
  {
    if k == 0 then Progress(Template([], []), [], [], [], 0)
    else WithInterpolation(lists, ExpandedFirst(lists, k - 1), k - 1)
  }

  function Expanded(lists: Lists): Progress
    requires lists.Valid()
  {
    var n := |lists.discoveries|;
    var before := ExpandedFirst(lists, n);
    before.(template := Join(before.template, LiteralTemplate(Literal(lists.template, n))))
  }

  // ---------------------------------------------------------------------------
  // The parameters, and dropping the duplicates
  // ---------------------------------------------------------------------------

  /** Which source interpolation each parameter stands for, in order. */
  function Holes(t: Template): (holes: seq<Hole>)
    ensures |holes| == |t.segments|
  {
    seq(|t.segments|, k requires 0 <= k < |t.segments| => t.segments[k].hole)
  }

  /** A parameter, numbered from 1, that belongs to an item after the first of a dynamic list. */
  predicate IsDuplicate(sites: seq<Site>, index: nat) {
    exists i :: 0 <= i < |sites| && SiteDuplicates(sites[i], index)
  }

  predicate SiteDuplicates(site: Site, index: nat) {
    && site.dynamic
    && site.parameterOffset + site.element.parameterCount < index
    && index <= site.parameterOffset + site.element.parameterCount * site.representativeItems
  }

  /** The parameters that are not duplicates; their new numbers are their places in the result. */
  function Collapse(holes: seq<Hole>, sites: seq<Site>): seq<Hole> {
    if holes == [] then []
    else
      Collapse(holes[..|holes| - 1], sites) + if IsDuplicate(sites, |holes|) then [] else [holes[|holes| - 1]]
  }

  lemma HolesJoin(a: Template, b: Template)
    ensures Holes(Join(a, b)) == Holes(a) + Holes(b)
  {
  }

  lemma DuplicateAdds(sites: seq<Site>, more: seq<Site>, index: nat)
    ensures IsDuplicate(sites + more, index) <==> IsDuplicate(sites, index) || IsDuplicate(more, index)
  {
    if IsDuplicate(sites, index) {
      var i :| 0 <= i < |sites| && SiteDuplicates(sites[i], index);
      assert (sites + more)[i] == sites[i];
    }
    if IsDuplicate(more, index) {
      var i :| 0 <= i < |more| && SiteDuplicates(more[i], index);
      assert (sites + more)[|sites| + i] == more[i];
    }
  }

  lemma {:induction false} CollapseIgnoresLater(holes: seq<Hole>, sites: seq<Site>, more: seq<Site>)
    requires forall index :: 0 <= index <= |holes| ==> !IsDuplicate(more, index)
    ensures Collapse(holes, sites + more) == Collapse(holes, sites)
  {
    if holes != [] {
      CollapseIgnoresLater(holes[..|holes| - 1], sites, more);
      DuplicateAdds(sites, more, |holes|);
    }
  }

  /** Appended parameters that are all kept, or all dropped. */
  lemma {:induction false} CollapseAppended(holes: seq<Hole>, block: seq<Hole>, sites: seq<Site>, dropped: bool)
    requires forall index :: |holes| < index <= |holes| + |block| ==> IsDuplicate(sites, index) == dropped
    ensures Collapse(holes + block, sites) == Collapse(holes, sites) + if dropped then [] else block
  {
    if block == [] {
      assert holes + block == holes;
    } else {
      var n := |block| - 1;
      CollapseAppended(holes, block[..n], sites, dropped);
      assert (holes + block)[..|holes + block| - 1] == holes + block[..n];
      assert IsDuplicate(sites, |holes| + |block|) == dropped;
    }
  }

  // ---------------------------------------------------------------------------
  // Two items collapse to one
  // ---------------------------------------------------------------------------

  /** Every list is short enough: the expansion reports nothing. */
  ghost predicate Fits(lists: Lists)
    requires lists.Valid()
  {
    forall k :: 0 <= k < |lists.discoveries| && lists.discoveries[k].Fragments? ==>
      lists.ItemCount(lists.discoveries[k]) <= lists.maximumItems
  }

  /** Each dynamic list stands for at least one item. */
  ghost predicate Represents(lists: Lists)
    requires lists.Valid()
  {
    forall k :: 0 <= k < |lists.discoveries| && lists.discoveries[k].Fragments? ==>
      lists.DynamicItems(lists.discoveries[k]) >= 1
  }

  function OneItem(lists: Lists): Lists {
    lists.(representative := Some(1))
  }

  function ItemHoles(lists: Lists, operand: Operand): seq<Hole> {
    match lists.LexItem(operand)
    case None => []
    case Some(lexed) => Holes(lexed.template)
  }

  function HolesOfItems(lists: Lists, d: Discovery, n: nat): seq<Hole>
    requires d.Fragments? && d.elements != [] && (d.dynamic || n <= |d.elements|)
  {
    if n == 0 then [] else HolesOfItems(lists, d, n - 1) + ItemHoles(lists, ItemOperand(d, n - 1))
  }

  lemma {:induction false} WithItemsHoles(lists: Lists, d: Discovery, t: Template, n: nat)
    requires d.Fragments? && d.elements != [] && (d.dynamic || n <= |d.elements|)
    ensures Holes(WithItems(lists, d, t, n)) == Holes(t) + HolesOfItems(lists, d, n)
  {
    if n > 0 {
      WithItemsHoles(lists, d, t, n - 1);
      var before := WithItems(lists, d, t, n - 1);
      var separated := Join(before, LiteralTemplate(Mark(SEPARATOR, d.start)));
      HolesJoin(before, LiteralTemplate(Mark(SEPARATOR, d.start)));
      if lists.LexItem(ItemOperand(d, n - 1)).Some? {
        HolesJoin(if n > 1 then separated else before, lists.LexItem(ItemOperand(d, n - 1)).value.template);
      }
      Associate(Holes(t), HolesOfItems(lists, d, n - 1), ItemHoles(lists, ItemOperand(d, n - 1)));
    }
  }

  lemma {:induction false} DynamicHoles(lists: Lists, d: Discovery, n: nat)
    requires d.Fragments? && d.elements != [] && d.dynamic && n >= 1
    ensures |HolesOfItems(lists, d, n)| == |ItemHoles(lists, d.elements[0])| * n
    ensures HolesOfItems(lists, d, n)[..|ItemHoles(lists, d.elements[0])|] == ItemHoles(lists, d.elements[0])
  {
    var one := ItemHoles(lists, d.elements[0]);
    assert HolesOfItems(lists, d, 1) == HolesOfItems(lists, d, 0) + one == one;
    if n > 1 {
      DynamicHoles(lists, d, n - 1);
      Multiply(|one|, n);
    }
  }

  lemma Multiply(c: nat, n: nat)
    requires n >= 1
    ensures c * n == c * (n - 1) + c
  {
  }

  lemma {:induction false} ItemsAreAllOrNone(lists: Lists, d: Discovery, t: Template, n: nat)
    requires d.Fragments? && d.elements != [] && d.dynamic && n >= 1
    ensures lists.LexItem(d.elements[0]).None? ==> ItemFragments(lists, d, t, n) == []
    ensures lists.LexItem(d.elements[0]).Some? ==>
      && ItemFragments(lists, d, t, n) != []
      && ItemFragments(lists, d, t, n)[0].query.parameterCount == |ItemHoles(lists, d.elements[0])|
  {
    assert ItemFragments(lists, d, t, 0) == [];
    if n > 1 {
      ItemsAreAllOrNone(lists, d, t, n - 1);
    }
  }

  ghost predicate SitesWithin(sites: seq<Site>, count: nat) {
    forall index :: index > count ==> !IsDuplicate(sites, index)
  }

  /** What the walk over the interpolations keeps: the collapsed parameters are those of the one-item walk. */
  ghost predicate CollapsesTo(p: Progress, one: Progress) {
    Collapse(Holes(p.template), p.sites) == Holes(one.template) && SitesWithin(p.sites, |Holes(p.template)|)
  }

  lemma CollapsesAppend(holes: seq<Hole>, block: seq<Hole>, sites: seq<Site>, one: seq<Hole>)
    requires Collapse(holes, sites) == one && SitesWithin(sites, |holes|)
    ensures Collapse(holes + block, sites) == one + block && SitesWithin(sites, |holes + block|)
  {
    CollapseAppended(holes, block, sites, false);
  }

  /** Which parameters a dynamic site drops. */
  ghost predicate Drops(site: Site, from: nat, to: nat) {
    forall index: nat :: SiteDuplicates(site, index) <==> from < index <= to
  }

  lemma DynamicDrops(site: Site, base: nat, c: nat, total: nat)
    requires site.dynamic && site.parameterOffset == base && site.element.parameterCount == c
    requires total == c * site.representativeItems
    ensures Drops(site, base + c, base + total)
  {
  }

  lemma OneSite(site: Site, index: nat)
    ensures IsDuplicate([site], index) <==> SiteDuplicates(site, index)
  {
    assert [site][0] == site;
  }

  lemma OneMoreSite(sites: seq<Site>, site: Site, index: nat)
    ensures IsDuplicate(sites + [site], index) <==> IsDuplicate(sites, index) || SiteDuplicates(site, index)
  {
    DuplicateAdds(sites, [site], index);
    OneSite(site, index);
  }

  /** Sites that drop, on top of what others drop, exactly the parameters in a range. */
  ghost predicate DropAlso(sites: seq<Site>, all: seq<Site>, from: nat, to: nat) {
    forall index: nat :: IsDuplicate(all, index) <==> IsDuplicate(sites, index) || from < index <= to
  }

  lemma SiteDropsAlso(sites: seq<Site>, site: Site, from: nat, to: nat)
    requires Drops(site, from, to)
    ensures DropAlso(sites, sites + [site], from, to)
  {
    forall index: nat ensures IsDuplicate(sites + [site], index) <==> IsDuplicate(sites, index) || from < index <= to {
      OneMoreSite(sites, site, index);
    }
  }

  lemma SiteKeepsEarlier(holes: seq<Hole>, sites: seq<Site>, site: Site, from: nat, to: nat)
    requires Drops(site, from, to) && from >= |holes|
    ensures Collapse(holes, sites + [site]) == Collapse(holes, sites)
  {
    forall index | 0 <= index <= |holes| ensures !IsDuplicate([site], index) {
      OneSite(site, index);
    }
    CollapseIgnoresLater(holes, sites, [site]);
  }

  /** Appending a dynamic list: its first item's parameters stay, the rest go. */
  lemma CollapsesDynamic(holes: seq<Hole>, block: seq<Hole>, sites: seq<Site>, all: seq<Site>, c: nat)
    requires SitesWithin(sites, |holes|)
    requires c <= |block| && DropAlso(sites, all, |holes| + c, |holes| + |block|)
    ensures Collapse(holes + block, all) == Collapse(holes, all) + block[..c]
    ensures SitesWithin(all, |holes + block|)
  {
    var kept, dropped := block[..c], block[c..];
    CollapseAppended(holes, kept, all, false);
    CollapseAppended(holes + kept, dropped, all, true);
    assert holes + block == holes + kept + dropped;
  }

  /** A site that is not dynamic drops nothing. */
  lemma StaticSiteIsHarmless(holes: seq<Hole>, sites: seq<Site>, site: Site)
    requires !site.dynamic
    ensures Collapse(holes, sites + [site]) == Collapse(holes, sites)
    ensures SitesWithin(sites, |holes|) ==> SitesWithin(sites + [site], |holes|)
  {
    CollapseIgnoresLater(holes, sites, [site]);
    forall index: nat ensures IsDuplicate(sites + [site], index) <==> IsDuplicate(sites, index) {
      DuplicateAdds(sites, [site], index);
    }
  }

  lemma ListCollapses(lists: Lists, p: Progress, one: Progress, d: Discovery)
    requires d.Fragments? && d.elements != [] && lists.ItemCount(d) <= lists.maximumItems && lists.DynamicItems(d) >= 1
    requires CollapsesTo(p, one)
    ensures CollapsesTo(WithList(lists, p, d), WithList(OneItem(lists), one, d))
  {
    var n := lists.ItemCount(d);
    var holes, sites := Holes(p.template), p.sites;
    var block := HolesOfItems(lists, d, n);
    WithItemsHoles(lists, d, p.template, n);
    if d.dynamic {
      var operand := d.elements[0];
      var c := |ItemHoles(lists, operand)|;
      DynamicHoles(lists, d, n);
      ItemsAreAllOrNone(lists, d, p.template, n);
      OneItemHoles(lists, d, one.template);
      if lists.LexItem(operand).None? {
        assert block == [] by {
          assert c * n == 0;
        }
        assert holes + block == holes;
        assert Holes(one.template) + [] == Holes(one.template);
      } else {
        var sites' := WithList(lists, p, d).sites;
        assert c <= c * n by {
          Multiply(c, n);
        }
        DynamicDrops(sites'[|sites|], |holes|, c, |block|);
        SiteDropsAlso(sites, sites'[|sites|], |holes| + c, |holes| + |block|);
        SiteKeepsEarlier(holes, sites, sites'[|sites|], |holes| + c, |holes| + |block|);
        CollapsesDynamic(holes, block, sites, sites', c);
      }
    } else {
      StaticItemHoles(lists, d, one.template, n);
      CollapsesAppend(holes, block, sites, Holes(one.template));
      var sites' := WithList(lists, p, d).sites;
      if |sites'| > |sites| {
        StaticSiteIsHarmless(holes + block, sites, sites'[|sites|]);
      }
    }
  }

  lemma SameItem(lists: Lists, one: Lists, operand: Operand)
    requires one == OneItem(lists)
    ensures ItemHoles(one, operand) == ItemHoles(lists, operand)
  {
    assert one.LexItem(operand) == lists.LexItem(operand);
  }

  lemma FirstItemHoles(lists: Lists, d: Discovery)
    requires d.Fragments? && d.elements != []
    ensures HolesOfItems(lists, d, 1) == ItemHoles(lists, d.elements[0])
  {
    var none: seq<Hole> := HolesOfItems(lists, d, 0);
    assert none + ItemHoles(lists, d.elements[0]) == ItemHoles(lists, d.elements[0]);
  }

  lemma OneItemHoles(lists: Lists, d: Discovery, t: Template)
    requires d.Fragments? && d.elements != [] && d.dynamic
    ensures Holes(WithItems(OneItem(lists), d, t, 1)) == Holes(t) + ItemHoles(lists, d.elements[0])
  {
    var one := OneItem(lists);
    WithItemsHoles(one, d, t, 1);
    FirstItemHoles(one, d);
    SameItem(lists, one, d.elements[0]);
  }

  lemma {:induction false} SameItemHoles(lists: Lists, one: Lists, d: Discovery, n: nat)
    requires d.Fragments? && d.elements != [] && (d.dynamic || n <= |d.elements|) && one == OneItem(lists)
    ensures HolesOfItems(one, d, n) == HolesOfItems(lists, d, n)
  {
    if n > 0 {
      var m := n - 1;
      SameItemHoles(lists, one, d, m);
      SameItem(lists, one, ItemOperand(d, m));
    }
  }

  lemma StaticItemHoles(lists: Lists, d: Discovery, t: Template, n: nat)
    requires d.Fragments? && d.elements != [] && n <= |d.elements|
    ensures Holes(WithItems(OneItem(lists), d, t, n)) == Holes(t) + HolesOfItems(lists, d, n)
  {
    WithItemsHoles(OneItem(lists), d, t, n);
    SameItemHoles(lists, OneItem(lists), d, n);
  }

  lemma LiteralCollapses(p: Progress, one: Progress, literal: Mapped)
    requires CollapsesTo(p, one)
    ensures CollapsesTo(p.(template := Join(p.template, LiteralTemplate(literal))),
                        one.(template := Join(one.template, LiteralTemplate(literal))))
  {
    HolesJoin(p.template, LiteralTemplate(literal));
    HolesJoin(one.template, LiteralTemplate(literal));
    assert Holes(p.template) + [] == Holes(p.template);
    assert Holes(one.template) + [] == Holes(one.template);
  }

  lemma ValueCollapses(lists: Lists, p: Progress, one: Progress, hole: Hole)
    requires CollapsesTo(p, one)
    ensures CollapsesTo(WithValue(lists, p, hole), WithValue(OneItem(lists), one, hole))
  {
    var t := Template([], [Segment(hole, [])]);
    HolesJoin(p.template, t);
    HolesJoin(one.template, t);
    assert Holes(t) == [hole];
    CollapsesAppend(Holes(p.template), [hole], p.sites, Holes(one.template));
  }

  lemma OneMoreCollapses(lists: Lists, before: Progress, one: Progress, k: nat)
    requires lists.Valid() && Fits(lists) && Represents(lists) && k < |lists.discoveries|
    requires CollapsesTo(before, one)
    ensures CollapsesTo(WithInterpolation(lists, before, k), WithInterpolation(OneItem(lists), one, k))
  {
    var literal := LiteralTemplate(Literal(lists.template, k));
    LiteralCollapses(before, one, Literal(lists.template, k));
    var p, q := before.(template := Join(before.template, literal)), one.(template := Join(one.template, literal));
    if lists.discoveries[k].Value? {
      ValueCollapses(lists, p, q, lists.template.segments[k].hole);
    } else {
      ListCollapses(lists, p, q, lists.discoveries[k]);
    }
  }

  lemma {:induction false} WalkCollapses(lists: Lists, k: nat) returns (p: Progress, one: Progress)
    requires lists.Valid() && Fits(lists) && Represents(lists) && k <= |lists.discoveries|
    ensures p == ExpandedFirst(lists, k) && one == ExpandedFirst(OneItem(lists), k) && CollapsesTo(p, one)
  {
    if k == 0 {
      p, one := ExpandedFirst(lists, 0), ExpandedFirst(OneItem(lists), 0);
    } else {
      var before, oneBefore := WalkCollapses(lists, k - 1);
      OneMoreCollapses(lists, before, oneBefore, k - 1);
      p, one := WithInterpolation(lists, before, k - 1), WithInterpolation(OneItem(lists), oneBefore, k - 1);
    }
  }

  /**
   * Dropping, from an expansion with any number of representative items, the parameters of every item after the first
   * of each dynamic list leaves exactly the parameters of the one-item expansion: slot by slot, each standing for the
   * same source interpolation.
   */
  lemma DuplicatesCollapseToOneItem(lists: Lists)
    requires lists.Valid() && Fits(lists) && Represents(lists)
    ensures Collapse(Holes(Expanded(lists).template), Expanded(lists).sites) == Holes(Expanded(OneItem(lists)).template)
  {
    var n := |lists.discoveries|;
    var p, one := WalkCollapses(lists, n);
    LiteralCollapses(p, one, Literal(lists.template, n));
  }

  // ---------------------------------------------------------------------------
  // What a site's range slices out
  // ---------------------------------------------------------------------------

  function SqlsOf(fragments: seq<Placed>): (sqls: seq<Text>)
    ensures |sqls| == |fragments|
  {
    seq(|fragments|, i requires 0 <= i < |fragments| => fragments[i].query.sql)
  }

  /** The texts with a separator between each two. */
  function JoinTexts(texts: seq<Text>): Text {
    if texts == [] then []
    else if |texts| == 1 then texts[0]
    else JoinTexts(texts[..|texts| - 1]) + SEPARATOR + texts[|texts| - 1]
  }

  lemma JoinTextsSnoc(texts: seq<Text>, text: Text)
    ensures JoinTexts(texts + [text]) == if texts == [] then text else JoinTexts(texts) + SEPARATOR + text
  {
    assert (texts + [text])[..|texts|] == texts;
  }

  lemma SqlsOfSnoc(fragments: seq<Placed>, fragment: Placed)
    ensures JoinTexts(SqlsOf(fragments + [fragment]))
      == if fragments == [] then fragment.query.sql else JoinTexts(SqlsOf(fragments)) + SEPARATOR + fragment.query.sql
  {
    assert SqlsOf(fragments + [fragment]) == SqlsOf(fragments) + [fragment.query.sql];
    JoinTextsSnoc(SqlsOf(fragments), fragment.query.sql);
  }

  /** What the first `n` items add to the SQL: a separator stands before every item but the first of the list. */
  lemma {:induction false} ItemsText(lists: Lists, d: Discovery, t: Template, n: nat) returns (text: Text)
    requires d.Fragments? && d.elements != [] && (d.dynamic || n <= |d.elements|)
    ensures Units(Render(WithItems(lists, d, t, n), lists.placeholder, 0))
      == Units(Render(t, lists.placeholder, 0)) + text
    ensures var joined := JoinTexts(SqlsOf(ItemFragments(lists, d, t, n)));
      text == if ItemFragments(lists, d, t, n) == [] then []
              else if lists.LexItem(d.elements[0]).Some? then joined else SEPARATOR + joined
    ensures n >= 1 && lists.LexItem(d.elements[0]).Some? ==> ItemFragments(lists, d, t, n) != []
  {
    var start := Units(Render(t, lists.placeholder, 0));
    if n == 0 {
      assert start + [] == start;
      return [];
    }
    var front := ItemsText(lists, d, t, n - 1);
    var operand := ItemOperand(d, n - 1);
    if lists.LexItem(operand).None? {
      return front;
    }
    var before := WithItems(lists, d, t, n - 1);
    var fragments := ItemFragments(lists, d, t, n - 1);
    var query := lists.ExtractItem(operand, |before.segments|).value;
    AppendItemText(lists, d, before, lists.LexItem(operand).value.template, n > 1);
    SqlsOfSnoc(fragments, Placed(query, |before.segments|));
    var own := if n > 1 then SEPARATOR + query.sql else query.sql;
    text := front + own;
    Associate(start, front, own);
    AppendJoined(front, JoinTexts(SqlsOf(fragments)), query.sql);
  }

  lemma AppendJoined(front: Text, joined: Text, sql: Text)
    ensures [] + sql == sql && [] + (SEPARATOR + sql) == SEPARATOR + sql
    ensures front == joined ==> front + (SEPARATOR + sql) == joined + SEPARATOR + sql
    ensures front == SEPARATOR + joined ==> front + (SEPARATOR + sql) == SEPARATOR + (joined + SEPARATOR + sql)
  {
  }

  lemma AppendItemText(lists: Lists, d: Discovery, before: Template, item: Template, separated: bool)
    requires d.Fragments?
    ensures
      var joined := Join(if separated then Join(before, LiteralTemplate(Mark(SEPARATOR, d.start))) else before, item);
      var sql := Units(Render(item, lists.placeholder, |before.segments|));
      Units(Render(joined, lists.placeholder, 0))
      == Units(Render(before, lists.placeholder, 0)) + (if separated then SEPARATOR + sql else sql)
  {
    var separator := LiteralTemplate(Mark(SEPARATOR, d.start));
    var start, rendered := Render(before, lists.placeholder, 0), Render(item, lists.placeholder, |before.segments|);
    if separated {
      RenderJoin(before, separator, lists.placeholder, 0);
      RenderJoin(Join(before, separator), item, lists.placeholder, 0);
      UnitsAndOriginsAdd(start, Mark(SEPARATOR, d.start));
      UnitsAndOriginsAdd(start + Mark(SEPARATOR, d.start), rendered);
      MarkParts(SEPARATOR, d.start);
      Associate(Units(start), SEPARATOR, Units(rendered));
    } else {
      RenderJoin(before, item, lists.placeholder, 0);
      UnitsAndOriginsAdd(start, rendered);
    }
  }

  lemma {:induction false} AlternativeIsThere(lists: Lists, d: Discovery, offset: nat, n: nat, i: nat,
                                              query: ExtractedQuery)
    requires d.Fragments? && 1 <= i < n <= |d.elements| && lists.ExtractItem(d.elements[i], offset) == Some(query)
    ensures Placed(query, offset) in Alternatives(lists, d, offset, n)
  {
    if i < n - 1 {
      AlternativeIsThere(lists, d, offset, n - 1, i, query);
    }
  }

  /**
   * Every other callback path of a dynamic list that extracts is kept as it would look in the list's place: numbered on
   * from the parameters in front of the list, so that its SQL is what it would add there.
   */
  lemma AlternativesStandInPlace(lists: Lists, p: Progress, d: Discovery, i: nat) returns (query: ExtractedQuery)
    requires d.Fragments? && d.dynamic && lists.ItemCount(d) <= lists.maximumItems
    requires 1 <= i < |d.elements| && lists.LexItem(d.elements[i]).Some?
    ensures Placed(query, |p.template.segments|) in WithList(lists, p, d).fragments
    ensures query.start == d.elements[i].start
    ensures Units(Render(Join(p.template, lists.LexItem(d.elements[i]).value.template), lists.placeholder, 0))
            == Units(Render(p.template, lists.placeholder, 0)) + query.sql
  {
    var offset := |p.template.segments|;
    query := lists.ExtractItem(d.elements[i], offset).value;
    AlternativeIsThere(lists, d, offset, |d.elements|, i, query);
    AppendItemText(lists, d, p.template, lists.LexItem(d.elements[i]).value.template, false);
  }

  /** The progress in front of list k, its literal text included. */
  function BeforeList(lists: Lists, k: nat): Progress
    requires lists.Valid() && k < |lists.discoveries|
  {
    var before := ExpandedFirst(lists, k);
    before.(template := Join(before.template, LiteralTemplate(Literal(lists.template, k))))
  }

  lemma ExpandedStep(lists: Lists, k: nat, n: nat)
    requires lists.Valid() && k < |lists.discoveries| && n == k + 1
    ensures ExpandedFirst(lists, n) ==
      if lists.discoveries[k].Value? then WithValue(lists, BeforeList(lists, k), lists.template.segments[k].hole)
      else WithList(lists, BeforeList(lists, k), lists.discoveries[k])
  {
  }

  lemma JoinExtends(a: Template, b: Template, placeholder: Placeholder)
    ensures Units(Render(a, placeholder, 0)) <= Units(Render(Join(a, b), placeholder, 0))
  {
    RenderJoin(a, b, placeholder, 0);
    UnitsAndOriginsAdd(Render(a, placeholder, 0), Render(b, placeholder, |a.segments|));
  }

  lemma {:induction false} ItemsExtend(lists: Lists, d: Discovery, t: Template, n: nat)
    requires d.Fragments? && d.elements != [] && (d.dynamic || n <= |d.elements|)
    ensures Units(Render(t, lists.placeholder, 0)) <= Units(Render(WithItems(lists, d, t, n), lists.placeholder, 0))
  {
    var text := ItemsText(lists, d, t, n);
  }

  /** The SQL of a template. */
  function SqlOf(lists: Lists, t: Template): Text {
    Units(Render(t, lists.placeholder, 0))
  }

  ghost predicate Extends(lists: Lists, p: Progress, q: Progress) {
    SqlOf(lists, p.template) <= SqlOf(lists, q.template) && p.sites <= q.sites
  }

  lemma ExtendsTransitive(lists: Lists, p: Progress, q: Progress, r: Progress)
    requires Extends(lists, p, q) && Extends(lists, q, r)
    ensures Extends(lists, p, r)
  {
  }

  lemma StepExtends(lists: Lists, k: nat, n: nat)
    requires lists.Valid() && k < |lists.discoveries| && n == k + 1
    ensures Extends(lists, ExpandedFirst(lists, k), ExpandedFirst(lists, n))
  {
    var d, p := lists.discoveries[k], BeforeList(lists, k);
    ExpandedStep(lists, k, n);
    JoinExtends(ExpandedFirst(lists, k).template, LiteralTemplate(Literal(lists.template, k)), lists.placeholder);
    if d.Value? {
      JoinExtends(p.template, Template([], [Segment(lists.template.segments[k].hole, [])]), lists.placeholder);
    } else if lists.ItemCount(d) <= lists.maximumItems {
      ItemsExtend(lists, d, p.template, lists.ItemCount(d));
    }
  }

  lemma {:induction false} WalkExtends(lists: Lists, k: nat, n: nat)
    requires lists.Valid() && k <= n <= |lists.discoveries|
    ensures Extends(lists, ExpandedFirst(lists, k), ExpandedFirst(lists, n))
    decreases n
  {
    if k < n {
      var m := n - 1;
      WalkExtends(lists, k, m);
      StepExtends(lists, m, n);
      ExtendsTransitive(lists, ExpandedFirst(lists, k), ExpandedFirst(lists, m), ExpandedFirst(lists, n));
    }
  }

  lemma ExpandedExtends(lists: Lists, k: nat)
    requires lists.Valid() && k <= |lists.discoveries|
    ensures Extends(lists, ExpandedFirst(lists, k), Expanded(lists))
  {
    var n := |lists.discoveries|;
    WalkExtends(lists, k, n);
    JoinExtends(ExpandedFirst(lists, n).template, LiteralTemplate(Literal(lists.template, n)), lists.placeholder);
    ExtendsTransitive(lists, ExpandedFirst(lists, k), ExpandedFirst(lists, n), Expanded(lists));
  }

  /** The SQL of the items of list k that extract. */
  function ListSqls(lists: Lists, k: nat): seq<Text>
    requires lists.Valid() && k < |lists.discoveries| && lists.discoveries[k].Fragments?
  {
    var d := lists.discoveries[k];
    SqlsOf(ItemFragments(lists, d, BeforeList(lists, k).template, lists.ItemCount(d)))
  }

  /**
   * A site slices its items, joined, out of the SQL, behind a stray separator if the first element does not extract.
   */
  ghost predicate Slices(site: Site, sql: Text, sqls: seq<Text>, firstExtracts: bool) {
    && site.sqlStart <= site.sqlEnd <= |sql|
    && (sql[site.sqlStart..site.sqlEnd] == JoinTexts(sqls) <==> firstExtracts)
    && (!firstExtracts ==> sql[site.sqlStart..site.sqlEnd] == SEPARATOR + JoinTexts(sqls))
  }

  lemma SiteStays(lists: Lists, q: Progress, r: Progress, index: nat, sqls: seq<Text>, firstExtracts: bool)
    requires index < |q.sites| && Slices(q.sites[index], SqlOf(lists, q.template), sqls, firstExtracts)
    requires Extends(lists, q, r)
    ensures index < |r.sites| && r.sites[index] == q.sites[index]
    ensures Slices(r.sites[index], SqlOf(lists, r.template), sqls, firstExtracts)
  {
    var site := q.sites[index];
    SliceOfPrefix(SqlOf(lists, q.template), SqlOf(lists, r.template), site.sqlStart, site.sqlEnd);
  }

  lemma TextIsSliced(site: Site, before: Text, text: Text, after: Text, sqls: seq<Text>, firstExtracts: bool)
    requires site.sqlStart == |before| && site.sqlEnd == |after| && after == before + text
    requires text == if firstExtracts then JoinTexts(sqls) else SEPARATOR + JoinTexts(sqls)
    ensures Slices(site, after, sqls, firstExtracts)
  {
    assert after[|before|..|after|] == text;
    assert |SEPARATOR + JoinTexts(sqls)| > |JoinTexts(sqls)|;
  }

  /** Right after list k. */
  lemma SiteIsWritten(lists: Lists, k: nat, p: Progress, q: Progress)
    requires lists.Valid() && k < |lists.discoveries| && lists.discoveries[k].Fragments?
    requires lists.ItemCount(lists.discoveries[k]) <= lists.maximumItems && ListSqls(lists, k) != []
    requires p == BeforeList(lists, k) && q == WithList(lists, p, lists.discoveries[k])
    ensures |q.sites| == |p.sites| + 1 && q.sites[|p.sites|].start == lists.discoveries[k].start
    ensures Slices(q.sites[|p.sites|], SqlOf(lists, q.template), ListSqls(lists, k),
                   lists.LexItem(lists.discoveries[k].elements[0]).Some?)
  {
    var d := lists.discoveries[k];
    var n := lists.ItemCount(d);
    var text := ItemsText(lists, d, p.template, n);
    TextIsSliced(q.sites[|p.sites|], SqlOf(lists, p.template), text, SqlOf(lists, q.template), ListSqls(lists, k),
                 lists.LexItem(d.elements[0]).Some?);
  }

  /**
   * List k, when any of its items extracts, gets a site, and the site's range slices its items out of the final SQL
   * joined by ", " exactly when the first element of the list is one of those that extract. When it is not, as when
   * its template holds a malformed escape, the slice starts with a stray separator.
   */
  lemma SiteSlicesItsItems(lists: Lists, k: nat)
    requires lists.Valid() && k < |lists.discoveries| && lists.discoveries[k].Fragments?
    requires lists.ItemCount(lists.discoveries[k]) <= lists.maximumItems && ListSqls(lists, k) != []
    ensures var d, sites, index := lists.discoveries[k], Expanded(lists).sites, |BeforeList(lists, k).sites|;
      && index < |sites| && sites[index].start == d.start
      && Slices(sites[index], SqlOf(lists, Expanded(lists).template), ListSqls(lists, k),
                lists.LexItem(d.elements[0]).Some?)
  {
    var d, p, next := lists.discoveries[k], BeforeList(lists, k), k + 1;
    var q := WithList(lists, p, d);
    ExpandedStep(lists, k, next);
    SiteIsWritten(lists, k, p, q);
    ExpandedExtends(lists, next);
    SiteStays(lists, q, Expanded(lists), |p.sites|, ListSqls(lists, k), lists.LexItem(d.elements[0]).Some?);
  }
}
