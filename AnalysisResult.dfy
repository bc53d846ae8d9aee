/**
 * What the result screen derives from the analysis answer and the persona:
 * the keyword cloud (keywords zipped with colours and a size scale, shown
 * in shuffled order, each row with a fixed alignment), the persona theme,
 * the five-axis energy chart and the commentary sections taken by
 * position.
 */
module AnalysisResult {
  import opened Wrappers
  import opened Api
  import PersonaSelector

  /** `xs[i]` in JavaScript: `undefined` past the end. */
  function At<T>(xs: seq<T>, i: nat): (r: Option<T>)
    ensures i < |xs| ==> r == Some(xs[i])
    ensures i >= |xs| ==> r == None
  {
    if i < |xs| then Some(xs[i]) else None
  }

  /* ---------------- mapping over reorderings ---------------- */

  /** `a.map(f)`. */
  function MapSeq<T, U>(a: seq<T>, f: T -> U): (r: seq<U>)
    ensures |r| == |a|
  {
    if a == [] then [] else [f(a[0])] + MapSeq(a[1..], f)
  }

  lemma {:induction false} MapSeqAt<T, U>(a: seq<T>, f: T -> U, k: nat)
    requires k < |a|
    ensures MapSeq(a, f)[k] == f(a[k])
  {
    if k > 0 {
      MapSeqAt(a[1..], f, k - 1);
    }
  }

  /** A sequence with the length of `a` and `f` of each element of `a` at each position is `MapSeq(a, f)`. */
  lemma MapSeqIs<T, U>(a: seq<T>, f: T -> U, r: seq<U>)
    requires |r| == |a| && forall k :: 0 <= k < |a| ==> r[k] == f(a[k])
    ensures MapSeq(a, f) == r
  {
    forall k | 0 <= k < |a| ensures MapSeq(a, f)[k] == r[k] {
      MapSeqAt(a, f, k);
    }
  }

  lemma {:induction false} MapSeqConcat<T, U>(a: seq<T>, b: seq<T>, f: T -> U)
    ensures MapSeq(a + b, f) == MapSeq(a, f) + MapSeq(b, f)
  {
    if a != [] {
      assert (a + b)[0] == a[0] && (a + b)[1..] == a[1..] + b;
      MapSeqConcat(a[1..], b, f);
      calc {
        MapSeq(a + b, f);
        [f(a[0])] + MapSeq(a[1..] + b, f);
        [f(a[0])] + (MapSeq(a[1..], f) + MapSeq(b, f));
        ([f(a[0])] + MapSeq(a[1..], f)) + MapSeq(b, f);
      }
    } else {
      assert a + b == b;
    }
  }

  /** Taking one element out of the middle takes its image out of the mapped multiset. */
  lemma MapSeqAroundOne<T, U>(b1: seq<T>, x: T, b2: seq<T>, f: T -> U)
    ensures multiset(MapSeq(b1 + ([x] + b2), f)) == multiset([f(x)]) + multiset(MapSeq(b1 + b2, f))
  {
    MapSeqConcat(b1, [x] + b2, f);
    MapSeqConcat([x], b2, f);
    MapSeqConcat(b1, b2, f);
  }

  /** Where the first element of `a` sits in `b`, and what is left on both sides once it is taken out. */
  lemma MatchHead<T>(a: seq<T>, b: seq<T>) returns (j: nat)
    requires a != [] && multiset(a) == multiset(b)
    ensures j < |b| && b[j] == a[0]
    ensures multiset(a[1..]) == multiset(b[..j] + b[j + 1..])
  {
    assert a[0] in multiset(b);
    j :| 0 <= j < |b| && b[j] == a[0];
    assert a == [a[0]] + a[1..];
    assert b == b[..j] + [a[0]] + b[j + 1..];
    assert multiset(a[1..]) == multiset(a) - multiset{a[0]};
    assert multiset(b[..j] + b[j + 1..]) == multiset(b) - multiset{a[0]};
  }

  /** Mapping two orderings of the same elements gives two orderings of the same images. */
  lemma {:induction false} MultisetMapped<T, U>(a: seq<T>, b: seq<T>, f: T -> U)
    requires multiset(a) == multiset(b)
    ensures multiset(MapSeq(a, f)) == multiset(MapSeq(b, f))
    decreases |a|
  {
    if a != [] {
      var j := MatchHead(a, b);
      var x, b1, b2 := a[0], b[..j], b[j + 1..];
      MultisetMapped(a[1..], b1 + b2, f);
      assert b == b1 + ([x] + b2);
      MapSeqAroundOne(b1, x, b2, f);
      assert MapSeq(a, f) == [f(x)] + MapSeq(a[1..], f);
    }
  }

  /* ---------------- keyword cloud ---------------- */

  /** A keyword as the cloud draws it; `originalIndex` is its React key. */
  datatype KeywordItem = KeywordItem(word: string, color: Option<string>, sizeClass: string, originalIndex: nat)

  /** The descending size scale of the first five keywords. */
  const SizeClasses: seq<string> := [
    "text-[72px] font-black",
    "text-[56px] font-black",
    "text-[48px] font-bold",
    "text-[40px] font-bold",
    "text-[32px] font-bold"
  ]

  /** The size of every keyword after the fifth. */
  const SmallestSize: string := "text-[24px]"

  /** `sizeClasses[i] || "text-[24px]"`. */
  function SizeClassFor(i: nat): string
  {
    At(SizeClasses, i).GetOr(SmallestSize)
  }

  /**
   * The keyword list: one item per `word_cloud` entry, in order, with the
   * colour at the same position of `top_5_colors` (absent when that list is
   * shorter) and the size at the same position of the scale.
   */
  function Keywords(wordCloud: seq<string>, colors: seq<string>): (r: seq<KeywordItem>)
    ensures |r| == |wordCloud|
    ensures forall i :: 0 <= i < |r| ==>
      r[i].word == wordCloud[i] && r[i].color == At(colors, i) &&
      r[i].sizeClass == SizeClassFor(i) && r[i].originalIndex == i
  {
    seq(|wordCloud|, i requires 0 <= i < |wordCloud| =>
      KeywordItem(wordCloud[i], At(colors, i), SizeClassFor(i), i))
  }

  /** The position-to-class table of the size scale: five steps, then the smallest size. */
  lemma SizeClassTable(i: nat)
    ensures i < 5 ==> SizeClassFor(i) == SizeClasses[i]
    ensures i >= 5 ==> SizeClassFor(i) == SmallestSize
  {
  }

  /** 0, 1, ..., n - 1. */
  function Indices(n: nat): (r: seq<nat>)
    ensures |r| == n
    ensures forall k :: 0 <= k < n ==> r[k] == k
  {
    seq(n, k requires 0 <= k < n => k)
  }

  /**
   * The outcome of the random sort: which original position ends up at
   * each place. Any reordering is possible; none is predicted.
   */
  predicate IsIndexPermutation(order: seq<nat>, n: nat)
  {
    && |order| == n
    && (forall k :: 0 <= k < |order| ==> order[k] < n)
    && multiset(order) == multiset(Indices(n))
  }

  /** The elements of `items` at the positions listed in `order`. */
  function Pick<T>(items: seq<T>, order: seq<nat>): (r: seq<T>)
    requires forall k :: 0 <= k < |order| ==> order[k] < |items|
    ensures |r| == |order|
    ensures forall k :: 0 <= k < |order| ==> r[k] == items[order[k]]
  {
    seq(|order|, k requires 0 <= k < |order| => items[order[k]])
  }

  /** An index permutation picks every element of `items` exactly once. */
  lemma PickPermutes<T>(items: seq<T>, order: seq<nat>)
    requires IsIndexPermutation(order, |items|)
    ensures multiset(Pick(items, order)) == multiset(items)
  {
    if |items| > 0 {
      var at := (i: nat) => items[if i < |items| then i else 0];
      MultisetMapped(order, Indices(|items|), at);
      MapSeqIs(order, at, Pick(items, order));
      MapSeqIs(Indices(|items|), at, items);
    }
  }

  /** `[...keywords].sort(() => Math.random() - 0.5)`, with the random outcome as `order`. */
  function Shuffled<T>(items: seq<T>, order: seq<nat>): (r: seq<T>)
    requires IsIndexPermutation(order, |items|)
    ensures |r| == |items|
    ensures forall k :: 0 <= k < |r| ==> 0 <= order[k] < |items| && r[k] == items[order[k]]
    ensures multiset(r) == multiset(items)
  {
    PickPermutes(items, order);
    Pick(items, order)
  }

  /** `getRowAlignment`: the placement of the row at position `index` of the shuffled cloud. */
  function RowAlignment(index: int): string
  {
    match index
    case 0 => "justify-start"
    case 1 => "justify-end"
    case 2 => "justify-center"
    case 3 => "justify-start pl-[15%]"
    case 4 => "justify-end pr-[15%]"
    case _ => "justify-start"
  }

  /** The alignment table is total: five fixed placements, then the default for every other index. */
  lemma RowAlignmentTable(index: int)
    ensures RowAlignment(index) ==
      if 0 <= index < 5
      then ["justify-start", "justify-end", "justify-center", "justify-start pl-[15%]", "justify-end pr-[15%]"][index]
      else "justify-start"
    ensures RowAlignment(index) != ""
  {
  }

  /**
   * The first five rows of the cloud get five different placements, and
   * every row past them (and any index out of range) is placed like the
   * first row.
   */
  lemma RowPlacementsDistinct()
    ensures forall i, j :: 0 <= i < j < 5 ==> RowAlignment(i) != RowAlignment(j)
    ensures forall i :: !(0 <= i < 5) ==> RowAlignment(i) == RowAlignment(0)
  {
  }

  /** One rendered row of the cloud: the keyword and the placement of its row. */
  datatype KeywordRow = KeywordRow(item: KeywordItem, alignment: string)

  /** The cloud as drawn: the shuffled keywords, each in a row aligned by its position. */
  function KeywordRows(wordCloud: seq<string>, colors: seq<string>, order: seq<nat>): (r: seq<KeywordRow>)
    requires IsIndexPermutation(order, |wordCloud|)
    ensures |r| == |wordCloud|
  {
    var shuffled := Shuffled(Keywords(wordCloud, colors), order);
    seq(|shuffled|, k requires 0 <= k < |shuffled| => KeywordRow(shuffled[k], RowAlignment(k)))
  }

  function RowWords(rows: seq<KeywordRow>): (r: seq<string>)
    ensures |r| == |rows|
    ensures forall k :: 0 <= k < |rows| ==> r[k] == rows[k].item.word
  {
    seq(|rows|, k requires 0 <= k < |rows| => rows[k].item.word)
  }

  /**
   * The cloud shows every keyword exactly once (the shuffle is a
   * permutation), the React keys of its rows are distinct, and the
   * alignment of a row depends only on its position.
   */
  lemma KeywordCloudShowsEachOnce(wordCloud: seq<string>, colors: seq<string>, order: seq<nat>)
    requires IsIndexPermutation(order, |wordCloud|)
    ensures multiset(RowWords(KeywordRows(wordCloud, colors, order))) == multiset(wordCloud)
    ensures forall j, k :: 0 <= j < k < |wordCloud| ==>
      KeywordRows(wordCloud, colors, order)[j].item.originalIndex != KeywordRows(wordCloud, colors, order)[k].item.originalIndex
    ensures forall k :: 0 <= k < |wordCloud| ==> KeywordRows(wordCloud, colors, order)[k].alignment == RowAlignment(k)
  {
    var items := Keywords(wordCloud, colors);
    var shuffled := Shuffled(items, order);
    var rows := KeywordRows(wordCloud, colors, order);
    var word := (it: KeywordItem) => it.word;
    MultisetMapped(shuffled, items, word);
    MapSeqIs(shuffled, word, RowWords(rows));
    MapSeqIs(items, word, wordCloud);
    forall j, k | 0 <= j < k < |wordCloud| ensures rows[j].item.originalIndex != rows[k].item.originalIndex {
      assert rows[j].item.originalIndex == order[j];
      assert rows[k].item.originalIndex == order[k];
      IndexOrderDistinct(order, |wordCloud|, j, k);
    }
  }

  /** No position is listed twice by an index permutation. */
  lemma IndexOrderDistinct(order: seq<nat>, n: nat, j: nat, k: nat)
    requires IsIndexPermutation(order, n)
    requires j < k < n
    ensures order[j] != order[k]
  {
    var x := order[j];
    IndicesCountAtMostOne(n, x);
    assert order == order[..j] + [x] + order[j + 1..k] + [order[k]] + order[k + 1..];
    assert multiset(order)[x] >= 1 + multiset([order[k]])[x];
  }

  lemma {:induction false} IndicesCountAtMostOne(n: nat, x: nat)
    ensures multiset(Indices(n))[x] <= 1
  {
    if n > 0 {
      assert Indices(n) == Indices(n - 1) + [n - 1];
      IndicesCountAtMostOne(n - 1, x);
      if x == n - 1 {
        assert x !in Indices(n - 1);
      }
    }
  }

  /* ---------------- persona theme ---------------- */

  /** The persona's colours, image key and subtitle. */
  datatype Theme = Theme(main: string, highlight: string, key: string, subTitle: string)

  const PersonaThemes: map<string, Theme> := map[
    PersonaSelector.Pepe := Theme("#E91E63", "#F8BBD0", "pepe",
      "그림을 따뜻하게 이해해 주는 마음 박사 페페의"),
    PersonaSelector.Labong := Theme("#FF9800", "#FFE0B2", "labong",
      "할 말은 하지만, 애정을 놓치지 않는 현실친구 라봉이의"),
    PersonaSelector.Pico := Theme("#4CAF50", "#C8E6C9", "pico",
      "그림을 스캔해서 무한 칭찬 쏟아내는 칭찬봇 피코의"),
    PersonaSelector.Shasha := Theme("#03A9F4", "#B3E5FC", "shasha",
      "쿨 하지만 속마음은 응원 가득한 카리스마 샤샤의")
  ]

  /** `personaThemes[persona] || personaThemes["마음박사 페페"]`. */
  function ThemeFor(persona: string): Theme
  {
    if persona in PersonaThemes then PersonaThemes[persona] else PersonaThemes[PersonaSelector.Pepe]
  }

  /** A name the theme table does not know (the empty name of a missing persona among them) gets Pepe's theme. */
  lemma UnknownPersonaFallsBack(persona: string)
    requires persona !in PersonaThemes
    ensures ThemeFor(persona) == ThemeFor(PersonaSelector.Pepe)
  {
  }

  /**
   * Every selectable persona has a theme of its own: the fallback is never
   * taken for a card's name, no two cards share a theme, and the card's
   * selected colour is its theme's main colour.
   */
  lemma OptionsHaveOwnThemes()
    ensures forall i :: 0 <= i < |PersonaSelector.Options| ==> PersonaSelector.Options[i].name in PersonaThemes
    ensures forall i, j :: 0 <= i < j < |PersonaSelector.Options| ==>
      ThemeFor(PersonaSelector.Options[i].name) != ThemeFor(PersonaSelector.Options[j].name)
    ensures forall i :: 0 <= i < |PersonaSelector.Options| ==>
      PersonaSelector.Options[i].bgColor == "bg-[" + ThemeFor(PersonaSelector.Options[i].name).main + "]"
  {
  }

  /* ---------------- energy chart ---------------- */

  /** One axis of the radar chart: its label, the score key it reads, its icon and blurb. */
  datatype Axis = Axis(subject: string, key: string, icon: string, desc: string)

  const ChartAxes: seq<Axis> := [
    Axis("즐거움", "joyful", "🌈", "밝고 활발한 표현으로\n활기찬 느낌이에요."),
    Axis("궁금증", "curious", "🔍", "새로운 장면에 등장해\n더 궁금해지는 느낌이에요."),
    Axis("반짝임", "sparkle", "✨", "눈에 띄는 색과 장식으로\n반짝이는 것에 집중되고 있어요."),
    Axis("휴식", "rest", "🍃", "편안한 장면이 많아서\n조용히 쉬는 차분한 느낌이에요."),
    Axis("멍때림", "spacing_out", "🫧", "빈 공간과 여운이 많아서\n가만히 있고 싶은 느낌이에요.")
  ]

  /** A chart point: the axis label and the score read for it (absent when the key is missing). */
  datatype ChartPoint = ChartPoint(subject: string, score: Option<Score>, icon: string, desc: string)

  /** `energy_chart[key]`: `undefined` for a missing key. */
  function Lookup(chart: map<string, Score>, key: string): Option<Score>
  {
    if key in chart then Some(chart[key]) else None
  }

  /** `chartData`: one point per axis, in the fixed axis order. */
  function ChartData(chart: map<string, Score>): (r: seq<ChartPoint>)
    ensures |r| == |ChartAxes| == 5
    ensures forall i :: 0 <= i < |r| ==>
      r[i].subject == ChartAxes[i].subject && r[i].score == Lookup(chart, ChartAxes[i].key)
  {
    seq(|ChartAxes|, i requires 0 <= i < |ChartAxes| =>
      ChartPoint(ChartAxes[i].subject, Lookup(chart, ChartAxes[i].key), ChartAxes[i].icon, ChartAxes[i].desc))
  }

  /**
   * The chart reads the five named scores and nothing else: extra keys do
   * not change it, the five labels are distinct, and every point has a
   * score when the answer carries all five keys.
   */
  lemma ChartReadsOnlyItsAxes(chart: map<string, Score>, extra: map<string, Score>)
    requires forall i :: 0 <= i < |ChartAxes| ==> ChartAxes[i].key !in extra
    ensures ChartData(chart + extra) == ChartData(chart)
    ensures forall i, j :: 0 <= i < j < 5 ==> ChartData(chart)[i].subject != ChartData(chart)[j].subject
    ensures (forall i :: 0 <= i < |ChartAxes| ==> ChartAxes[i].key in chart) ==>
      forall i :: 0 <= i < 5 ==> ChartData(chart)[i].score.Some?
  {
    assert ChartData(chart + extra) == ChartData(chart) by {
      forall i | 0 <= i < 5 ensures Lookup(chart + extra, ChartAxes[i].key) == Lookup(chart, ChartAxes[i].key) {}
    }
  }

  /* ---------------- commentary sections ---------------- */

  /**
   * The narrative as laid out: section 0 under the title, section 1 under
   * the keywords, section 2 under the chart, and the rest as solutions.
   * A missing section renders nothing.
   */
  datatype Commentary = Commentary(intro: Option<string>, keywordNote: Option<string>,
                                   energyNote: Option<string>, solutions: seq<string>)

  function Contents(sections: seq<CommentarySection>): (r: seq<string>)
    ensures |r| == |sections|
    ensures forall i :: 0 <= i < |sections| ==> r[i] == sections[i].content
  {
    seq(|sections|, i requires 0 <= i < |sections| => sections[i].content)
  }

  /** `commentary_sections[0]?.content`, `[1]`, `[2]`, and `slice(3)`. */
  function Layout(sections: seq<CommentarySection>): Commentary
  {
    Commentary(
      if |sections| > 0 then Some(sections[0].content) else None,
      if |sections| > 1 then Some(sections[1].content) else None,
      if |sections| > 2 then Some(sections[2].content) else None,
      if |sections| > 3 then Contents(sections[3..]) else [])
  }

  function Shown(o: Option<string>): seq<string>
  {
    if o.Some? then [o.value] else []
  }

  /** The texts on screen, top to bottom. */
  function Rendered(c: Commentary): seq<string>
  {
    Shown(c.intro) + Shown(c.keywordNote) + Shown(c.energyNote) + c.solutions
  }

  /**
   * Every section's content appears on the result screen exactly once and
   * in the order of the list, whatever the number of sections; the first
   * three are placed by position.
   */
  lemma LayoutShowsEverySection(sections: seq<CommentarySection>)
    ensures Rendered(Layout(sections)) == Contents(sections)
    ensures |sections| > 0 ==> Layout(sections).intro == Some(sections[0].content)
    ensures |sections| > 1 ==> Layout(sections).keywordNote == Some(sections[1].content)
    ensures |sections| > 2 ==> Layout(sections).energyNote == Some(sections[2].content)
  {
    var r, c := Rendered(Layout(sections)), Contents(sections);
    assert |r| == |c|;
    forall i | 0 <= i < |r| ensures r[i] == c[i] {
    }
  }
}
