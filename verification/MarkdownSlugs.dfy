/** Heading anchors: when all of a document are different. */
module MarkdownSlugs {
  import opened MarkdownInline
  import opened MarkdownBlocks
  import opened MarkdownDocument

  // ----- the ids of a list of headings -----

  function Ids(u: Unicode, texts: seq<string>, slugs: Slugs): (ids: seq<string>)
    ensures |ids| == |texts|
  {
    if texts == [] then []
    else
      var (id, s1) := Slugify(u, texts[0], slugs);
      [id] + Ids(u, texts[1..], s1)
  }

  function SlugsAfter(u: Unicode, texts: seq<string>, slugs: Slugs): Slugs {
    if texts == [] then slugs else SlugsAfter(u, texts[1..], Slugify(u, texts[0], slugs).1)
  }

  function SlugList(u: Unicode, texts: seq<string>): (gs: seq<string>)
    ensures |gs| == |texts| && forall k | 0 <= k < |texts| :: gs[k] == Slug(u, texts[k])
  {
    if texts == [] then [] else [Slug(u, texts[0])] + SlugList(u, texts[1..])
  }

  function Numbered(slug: string, n: nat): string {
    if n == 0 then slug else slug + "-" + Digits(n)
  }

  /** The id of heading `k`, from the slugs alone: numbered by the earlier ones that are the same. */
  function IdAt(gs: seq<string>, k: nat): string
    requires k < |gs|
  {
    Numbered(gs[k], multiset(gs[..k])[gs[k]])
  }

  /** The map counts the slugs in `before`. */
  ghost predicate Counts(slugs: Slugs, before: seq<string>) {
    forall s: string :: (if s in slugs then slugs[s] else 0) == multiset(before)[s]
  }

  lemma CountsNext(u: Unicode, text: string, slugs: Slugs, before: seq<string>)
    requires Counts(slugs, before)
    ensures Counts(Slugify(u, text, slugs).1, before + [Slug(u, text)])
    ensures Slugify(u, text, slugs).0 == Numbered(Slug(u, text), multiset(before)[Slug(u, text)])
  {
    hide Slug, Digits;
  }

  lemma SlugListStep(u: Unicode, texts: seq<string>, before: seq<string>)
    requires texts != []
    ensures before + SlugList(u, texts) == before + [Slug(u, texts[0])] + SlugList(u, texts[1..])
  {
    hide Slug;
  }

  lemma FirstId(u: Unicode, texts: seq<string>, before: seq<string>)
    requires texts != []
    ensures IdAt(before + SlugList(u, texts), |before|) == Numbered(Slug(u, texts[0]), multiset(before)[Slug(u, texts[0])])
  {
    hide Slug, Numbered;
    var all := before + SlugList(u, texts);
    assert all[..|before|] == before && all[|before|] == Slug(u, texts[0]);
  }

  lemma {:induction false} IdsAre(u: Unicode, texts: seq<string>, slugs: Slugs, before: seq<string>, k: nat)
    requires Counts(slugs, before) && k < |texts|
    ensures Ids(u, texts, slugs)[k] == IdAt(before + SlugList(u, texts), |before| + k)
    decreases |texts|
  {
    hide Slug, Slugify, IdAt, Counts, SlugList;
    CountsNext(u, texts[0], slugs, before);
    if k == 0 {
      FirstId(u, texts, before);
    } else {
      SlugListStep(u, texts, before);
      IdsAre(u, texts[1..], Slugify(u, texts[0], slugs).1, before + [Slug(u, texts[0])], k - 1);
    }
  }

  // ----- numbers and dashes -----

  lemma {:induction false} NumberOfDigits(n: nat)
    ensures Number(Digits(n)) == n
  {
    var s := Digits(n);
    var last := ('0' as int + n % 10) as char;
    assert s[|s| - 1] == last;
    if n >= 10 {
      NumberOfDigits(n / 10);
      assert s[..|s| - 1] == Digits(n / 10);
    } else {
      assert s[..|s| - 1] == "";
    }
  }

  /** The last dash splits a numbered slug in one way only. */
  lemma NumberedOnce(a: string, c: nat, b: string, d: nat)
    requires a + "-" + Digits(c) == b + "-" + Digits(d)
    ensures a == b && c == d
  {
    var x, y := Digits(c), Digits(d);
    NumberOfDigits(c);
    NumberOfDigits(d);
    hide Digits, Number;
    DashSplits(a, x, b, y);
  }

  lemma DigitAt(a: string, x: string, k: nat)
    requires |a| < k < |a| + 1 + |x| && forall i | 0 <= i < |x| :: AsciiDigit(x[i])
    ensures (a + "-" + x)[k] != '-'
  {
    assert (a + "-" + x)[k] == x[k - |a| - 1];
  }

  lemma NoLaterDash(a: string, x: string, k: nat)
    requires k < |a| + 1 + |x| && (a + "-" + x)[k] == '-' && forall i | 0 <= i < |x| :: AsciiDigit(x[i])
    ensures k <= |a|
  {
    if k > |a| {
      DigitAt(a, x, k);
      assert false;
    }
  }

  lemma DashSplits(a: string, x: string, b: string, y: string)
    requires a + "-" + x == b + "-" + y
    requires (forall k | 0 <= k < |x| :: AsciiDigit(x[k])) && (forall k | 0 <= k < |y| :: AsciiDigit(y[k]))
    ensures a == b && x == y
  {
    var s := a + "-" + x;
    assert s[|a|] == '-' && (b + "-" + y)[|b|] == '-';
    assert |s| == |b| + 1 + |y|;
    NoLaterDash(a, x, |b|);
    NoLaterDash(b, y, |a|);
    assert s[..|a|] == a && s[..|b|] == b && s[|a| + 1..] == x && s[|b| + 1..] == y;
  }

  // ----- when ids are different -----

  /** The slug `t` of some heading is also the id that a later heading with slug `s` gets as its number `c`. */
  predicate Clash(gs: seq<string>, t: string, s: string, c: nat) {
    t in gs && c >= 1 && multiset(gs)[s] > c && t == s + "-" + Digits(c)
  }

  ghost predicate Clashes(gs: seq<string>) {
    exists t, s, c :: Clash(gs, t, s, c)
  }

  ghost predicate AllDifferent(ids: seq<string>) {
    forall i, j | 0 <= i < j < |ids| :: ids[i] != ids[j]
  }

  /** The occurrence of `s` that has `c` earlier ones. */
  lemma {:induction false} Occurrence(gs: seq<string>, s: string, c: nat) returns (k: nat)
    requires multiset(gs)[s] > c
    ensures k < |gs| && gs[k] == s && multiset(gs[..k])[s] == c
    decreases |gs|
  {
    var n := |gs| - 1;
    assert gs == gs[..n] + [gs[n]];
    if gs[n] == s && multiset(gs[..n])[s] == c {
      k := n;
    } else {
      k := Occurrence(gs[..n], s, c);
      assert gs[..n][..k] == gs[..k];
    }
  }

  lemma MoreBefore(gs: seq<string>, i: nat, j: nat)
    requires i < j < |gs| && gs[i] == gs[j]
    ensures multiset(gs[..i])[gs[i]] < multiset(gs[..j])[gs[j]] < multiset(gs)[gs[j]]
  {
    assert gs[..j] == gs[..i] + [gs[i]] + gs[i + 1..j];
    assert gs == gs[..j] + [gs[j]] + gs[j + 1..];
  }

  /** Headings with the same slug get different numbers. */
  lemma SameSlug(gs: seq<string>, i: nat, j: nat)
    requires i < j < |gs| && gs[i] == gs[j]
    ensures IdAt(gs, i) != IdAt(gs, j)
  {
    MoreBefore(gs, i, j);
    var c, d := multiset(gs[..i])[gs[i]], multiset(gs[..j])[gs[j]];
    hide Digits;
    if IdAt(gs, i) == IdAt(gs, j) && c > 0 { NumberedOnce(gs[i], c, gs[j], d); }
  }

  /** Two headings with the same id come from a clash. */
  lemma SameIdClashes(gs: seq<string>, i: nat, j: nat)
    requires i < |gs| && j < |gs| && gs[i] != gs[j] && IdAt(gs, i) == IdAt(gs, j)
    ensures Clashes(gs)
  {
    hide Digits;
    var c, d := multiset(gs[..i])[gs[i]], multiset(gs[..j])[gs[j]];
    Before(gs, i);
    Before(gs, j);
    if c == 0 {
      assert Clash(gs, gs[i], gs[j], d);
    } else if d == 0 {
      assert Clash(gs, gs[j], gs[i], c);
    } else {
      NumberedOnce(gs[i], c, gs[j], d);
      assert false;
    }
  }

  lemma Before(gs: seq<string>, k: nat)
    requires k < |gs|
    ensures multiset(gs[..k])[gs[k]] < multiset(gs)[gs[k]]
  {
    assert gs == gs[..k] + [gs[k]] + gs[k + 1..];
  }

  /** A clash gives two headings the same id. */
  lemma ClashSameId(gs: seq<string>, t: string, s: string, c: nat) returns (i: nat, j: nat)
    requires Clash(gs, t, s, c)
    ensures i < |gs| && j < |gs| && i != j && IdAt(gs, i) == IdAt(gs, j)
  {
    hide Digits;
    i := Occurrence(gs, t, 0);
    j := Occurrence(gs, s, c);
    assert |t| > |s|;
  }

  /** The ids of a list of headings are all different if and only if no slug in it is another one followed
      by a dash and a number below how often that one occurs. */
  lemma IdsDifferent(u: Unicode, texts: seq<string>)
    ensures AllDifferent(Ids(u, texts, map[])) <==> !Clashes(SlugList(u, texts))
  {
    hide Clash, IdAt, Ids, Slug;
    var ids, gs := Ids(u, texts, map[]), SlugList(u, texts);
    var none: seq<string> := [];
    assert none + gs == gs;
    forall k | 0 <= k < |ids| ensures ids[k] == IdAt(gs, k) {
      IdsAre(u, texts, map[], none, k);
    }
    if Clashes(gs) {
      var t, s, c: nat :| Clash(gs, t, s, c);
      var i, j := ClashSameId(gs, t, s, c);
      assert ids[i] == ids[j];
    } else {
      forall i, j | 0 <= i < j < |ids| ensures ids[i] != ids[j] {
        if gs[i] == gs[j] {
          SameSlug(gs, i, j);
        } else if IdAt(gs, i) == IdAt(gs, j) {
          SameIdClashes(gs, i, j);
        }
      }
    }
  }

  /** Three headings of which the last two get the same id. */
  lemma IdsClash(u: Unicode)
    requires u.alnum('a') && u.alnum('1') && !u.alnum('-')
    ensures Ids(u, ["a", "a", "a-1"], map[]) == ["a", "a-1", "a-1"] && Clashes(SlugList(u, ["a", "a", "a-1"]))
  {
    hide Slug, Ids, IdAt, Clashes, Counts;
    var texts := ["a", "a", "a-1"];
    SlugOfA(u);
    assert SlugList(u, texts) == texts;
    ThreeIds(texts);
    EmptyCounts();
    var none: seq<string> := [];
    assert none + texts == texts;
    hide SlugList;
    IdsAre(u, texts, map[], none, 0);
    IdsAre(u, texts, map[], none, 1);
    IdsAre(u, texts, map[], none, 2);
  }

  lemma EmptyCounts()
    ensures Counts(map[], [])
  {
  }

  lemma ThreeIds(gs: seq<string>)
    requires gs == ["a", "a", "a-1"]
    ensures IdAt(gs, 0) == "a" && IdAt(gs, 1) == "a-1" && IdAt(gs, 2) == "a-1" && Clashes(gs)
  {
    assert Digits(1) == "1" && "a" + "-" + "1" == "a-1";
    hide Digits;
    assert gs[..0] == [] && gs[..1] == ["a"] && gs[..2] == ["a", "a"];
    assert Clash(gs, "a-1", "a", 1);
  }

  lemma SlugOfA(u: Unicode)
    requires u.alnum('a') && u.alnum('1') && !u.alnum('-')
    ensures Slug(u, "a") == "a" && Slug(u, "a-1") == "a-1"
  {
    var a, b, c := "a", "a-1", "-1";
    assert a[1..] == "" && b[1..] == c && c[1..] == "1" && "1"[1..] == "";
    assert SlugChars(u, "", false) == "" && SlugChars(u, "1", true) == "1";
    assert SlugChars(u, a, false) == a;
    assert SlugChars(u, c, false) == "-" + "1";
    assert SlugChars(u, b, false) == "a" + ("-" + "1");
    assert "a" + ("-" + "1") == b;
  }

  // ----- the headings of a document -----

  /** The texts of the headings of a block, in the order they are rendered. */
  function HeadingsIn(b: Block): seq<string>
    decreases b, 0
  {
    match b
    case Heading(_, text) => [text]
    case Quote(inner) => Headings(inner)
    case List(_, _, items) => ItemHeadings(items)
    case _ => []
  }

  function Headings(bs: seq<Block>): seq<string>
    decreases bs, 0
  {
    if bs == [] then [] else HeadingsIn(bs[0]) + Headings(bs[1..])
  }

  function ItemHeadings(items: seq<Item>): seq<string>
    decreases items, 0
  {
    if items == [] then [] else Headings(items[0].blocks) + ItemHeadings(items[1..])
  }

  lemma {:induction false} SlugsAfterCat(u: Unicode, a: seq<string>, b: seq<string>, slugs: Slugs)
    ensures SlugsAfter(u, a + b, slugs) == SlugsAfter(u, b, SlugsAfter(u, a, slugs))
    decreases |a|
  {
    hide Slugify;
    if a == [] {
      assert a + b == b;
    } else {
      assert (a + b)[1..] == a[1..] + b;
      SlugsAfterCat(u, a[1..], b, Slugify(u, a[0], slugs).1);
    }
  }

  /** Rendering numbers the headings of a document in their order, through all nesting, so that its ids are
      those of the list of its headings. */
  lemma {:induction false} RenderSlugs(u: Unicode, bs: seq<Block>, slugs: Slugs)
    ensures RenderBlocks(u, bs, slugs).1 == SlugsAfter(u, Headings(bs), slugs)
    decreases bs, 0
  {
    hide RenderBlock, HeadingsIn;
    if bs != [] {
      BlockSlugs(u, bs[0], slugs);
      RenderSlugs(u, bs[1..], RenderBlock(u, bs[0], slugs).1);
      SlugsAfterCat(u, HeadingsIn(bs[0]), Headings(bs[1..]), slugs);
    }
  }

  lemma {:induction false} BlockSlugs(u: Unicode, b: Block, slugs: Slugs)
    ensures RenderBlock(u, b, slugs).1 == SlugsAfter(u, HeadingsIn(b), slugs)
    decreases b, 0
  {
    hide Slugify, RenderBlocks, RenderItems, Headings, ItemHeadings, RenderInline, RenderTable, RenderLines;
    match b
    case Heading(level, text) => assert [text][1..] == [];
    case Quote(inner) => RenderSlugs(u, inner, slugs);
    case List(ordered, start, items) => ItemsSlugs(u, items, slugs);
    case _ =>
  }

  lemma {:induction false} ItemsSlugs(u: Unicode, items: seq<Item>, slugs: Slugs)
    ensures RenderItems(u, items, slugs).1 == SlugsAfter(u, ItemHeadings(items), slugs)
    decreases items, 0
  {
    hide Slugify, RenderBlocks, Headings, RenderItem;
    if items != [] {
      ItemSlugs(u, items[0].blocks, slugs);
      ItemsSlugs(u, items[1..], RenderItem(u, items[0].blocks, slugs).1);
      SlugsAfterCat(u, Headings(items[0].blocks), ItemHeadings(items[1..]), slugs);
    }
  }

  lemma {:induction false} ItemSlugs(u: Unicode, bs: seq<Block>, slugs: Slugs)
    ensures RenderItem(u, bs, slugs).1 == SlugsAfter(u, Headings(bs), slugs)
    decreases bs, 1
  {
    RenderSlugs(u, bs, slugs);
    hide RenderBlocks, RenderLines;
    if bs != [] && bs[0].Paragraph? {
      RenderSlugs(u, bs[1..], slugs);
      var none: seq<string> := [];
      assert Headings(bs) == none + Headings(bs[1..]);
    }
  }
}
