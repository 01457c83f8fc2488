/** Budgeted result pages (src/results/page.rs).

    Whether a rendered page fits its token budget is an arbitrary, possibly
    non-monotone predicate of the page's shape; rendering may also fail. */
module Pages {
  import opened Basics
  import opened Text
  import opened Identity

  const SNIPPET_PAGE_FLOOR: nat := 8

  type Target = nat

  datatype Hit = Hit(key: nat, candidates: seq<Target>)

  datatype Format = Json | TabLines

  /** What a page shows: how many hits, which optional parts, how many candidates per hit. */
  datatype Shape = Shape(count: nat, names: bool, snippets: bool, candidates: Option<nat>)

  /** A hit on a page; `total` is present when its candidates were cut. */
  datatype Shown = Shown(hit: Hit, candidates: seq<Target>, total: Option<nat>)

  datatype Page = Page(shape: Shape, hits: seq<Shown>, next: Option<string>)

  datatype Failure = InvalidCursor | RenderFailed | BudgetTooSmall

  datatype Reply = Rendered(page: Page) | Failed(reason: Failure)

  // ------------------------------------------------------------ fitting

  /** Bits needed to write `n`: floor(log2(n)) + 1 for positive `n`. */
  function Bits(n: nat): nat {
    if n == 0 then 0 else 1 + Bits(n / 2)
  }

  lemma {:induction false} BitsMonotone(a: nat, b: nat)
    requires a <= b
    ensures Bits(a) <= Bits(b)
  {
    if a > 0 {
      BitsMonotone(a / 2, b / 2);
    }
  }

  /** Either half of a range takes one probe less than the whole. */
  lemma {:induction false} Halves(low: nat, high: nat, count: nat)
    requires low < high && count == low + (high - low + 1) / 2
    ensures 1 + Bits(high - count) <= Bits(high - low) && 1 + Bits(count - 1 - low) <= Bits(high - low)
  {
    BitsMonotone(high - count, (high - low) / 2);
    BitsMonotone(count - 1 - low, (high - low) / 2);
  }

  ghost predicate Monotone(fits: nat -> Result<bool>, max: nat) {
    forall a, b :: 0 <= a <= b <= max && fits(b) == Ok(true) ==> fits(a) == Ok(true)
  }

  /** Binary search for the largest fitting count. For any predicate the result is
      zero or was found to fit, and its successor was found not to fit; under
      monotonicity it is the maximum. */
  method LargestFitting(max: nat, fits: nat -> Result<bool>) returns (r: Result<nat>, probes: nat)
    ensures r.Ok? ==> r.value <= max && (r.value == 0 || fits(r.value) == Ok(true))
    ensures r.Ok? ==> r.value == max || fits(r.value + 1) == Ok(false)
    ensures r.Ok? && Monotone(fits, max) ==>
              forall n :: r.value < n <= max ==> fits(n) != Ok(true)
    ensures r.Err? ==> exists n :: 0 < n <= max && fits(n).Err?
    ensures probes <= Bits(max)
  {
    probes := 0;
    var low, high := 0, max;
    while low < high
      invariant 0 <= low <= high <= max
      invariant low == 0 || fits(low) == Ok(true)
      invariant high == max || fits(high + 1) == Ok(false)
      invariant probes + Bits(high - low) <= Bits(max)
    {
      var half := (high - low + 1) / 2;
      var count := low + half;
      var fit := fits(count);
      probes := probes + 1;
      Halves(low, high, count);
      if fit.Err? {
        return Err, probes;
      }
      if fit.value {
        low := count;
      } else {
        high := count - 1;
      }
    }
    r := Ok(low);
    if Monotone(fits, max) && low < max {
      assert fits(low + 1) == Ok(false);
    }
  }

  // ------------------------------------------------------------ page content

  /** A hit with its candidates cut to `limit`, as the page value shows it. */
  function Show(hit: Hit, limit: Option<nat>): Shown {
    if limit.Some? && |hit.candidates| > limit.value then
      Shown(hit, hit.candidates[..limit.value], Some(|hit.candidates|))
    else Shown(hit, hit.candidates, None)
  }

  function ShowAll(hits: seq<Hit>, limit: Option<nat>): (r: seq<Shown>)
    ensures |r| == |hits| && forall k :: 0 <= k < |r| ==> r[k] == Show(hits[k], limit)
  {
    seq(|hits|, k requires 0 <= k < |hits| => Show(hits[k], limit))
  }

  /** The cursor after the first `end` of `total` hits. */
  function NextCursor(id: Uuid, end: nat, total: nat): Option<string> {
    if end < total then Some(PrintCursor(Cursor(id, end))) else None
  }

  function Render(hits: seq<Hit>, id: Uuid, offset: nat, shape: Shape): Page
    requires offset + shape.count <= |hits|
  {
    Page(shape, ShowAll(hits[offset..offset + shape.count], shape.candidates),
         NextCursor(id, offset + shape.count, |hits|))
  }

  /** A page of `hits` at `offset` under a hit cap: what every successful page is. */
  ghost predicate Fitted(
    hits: seq<Hit>, id: Uuid, offset: nat, cap: nat, fits: Shape -> Result<bool>, p: Page)
  {
    && offset <= |hits|
    && p.shape.count <= Min(|hits| - offset, cap)
    && p == Render(hits, id, offset, p.shape)
    && fits(p.shape) == Ok(true)
    && (offset < |hits| ==> p.shape.count > 0)
    && (p.shape.candidates.Some? ==> p.shape.count == 1)
    && (p.shape.snippets ==> p.shape.names && p.shape.count >= Min(Min(|hits| - offset, cap), SNIPPET_PAGE_FLOOR))
  }

  /** A shape that a page of at most `max` hits may try. */
  ghost predicate Probed(max: nat, shape: Shape) {
    && shape.count <= max
    && (shape.count == 0 ==> max == 0 && shape == Shape(0, false, false, None))
    && (shape.snippets ==> shape.names && shape.candidates.None?)
    && (shape.candidates.Some? ==> shape.count == 1)
  }

  ghost predicate RenderingFails(max: nat, fits: Shape -> Result<bool>) {
    exists shape :: Probed(max, shape) && fits(shape).Err?
  }

  /** Some page with snippets of at most eight hits does not fit. */
  ghost predicate SnippetsTooLong(max: nat, fits: Shape -> Result<bool>) {
    exists n :: 0 < n <= Min(max, SNIPPET_PAGE_FLOOR) && fits(Shape(n, true, true, None)) == Ok(false)
  }

  /** The candidates that can be cut from a lone hit. */
  function Cuttable(hits: seq<Hit>, offset: nat, format: Format): nat {
    if format == Json && offset < |hits| then |hits[offset].candidates| else 0
  }

  /** Not even one hit fits, nor, when it has candidates to cut, one without any. */
  ghost predicate PassFails(cuttable: nat, names: bool, fits: Shape -> Result<bool>) {
    && fits(Shape(1, names, false, None)) == Ok(false)
    && (cuttable > 0 ==> fits(Shape(1, names, false, Some(0))) == Ok(false))
  }

  /** The page without snippets that one pass yields: one more hit does not fit, and names are
      shown exactly when they fit too; or one hit alone does not fit, and one more of its
      candidates does not. */
  ghost predicate PassGives(max: nat, cuttable: nat, names: bool, fits: Shape -> Result<bool>, s: Shape) {
    && !s.snippets && 0 < s.count <= max && fits(s) == Ok(true)
    && if s.candidates.None? then
         && (s.count == max || fits(Shape(s.count + 1, names, false, None)) == Ok(false))
         && fits(Shape(s.count, names, false, None)) == Ok(true)
         && (s.names <==> fits(Shape(s.count, true, false, None)) == Ok(true))
       else
         && s.count == 1 && s.names == names && s.candidates.value <= cuttable
         && fits(Shape(1, names, false, None)) == Ok(false)
         && (s.candidates.value == cuttable || fits(Shape(1, names, false, Some(s.candidates.value + 1))) == Ok(false))
  }

  /** The page shows as much as it may: snippets while they fit, then as many hits as fit. */
  ghost predicate Fullest(max: nat, cuttable: nat, fits: Shape -> Result<bool>, s: Shape) {
    if s.snippets then
      && s == Shape(s.count, true, true, None)
      && (s.count == max || fits(Shape(s.count + 1, true, true, None)) == Ok(false))
    else if max == 0 then s == Shape(0, false, false, None)
    else
      && SnippetsTooLong(max, fits)
      && (PassGives(max, cuttable, false, fits, s)
          || (PassFails(cuttable, false, fits) && PassGives(max, cuttable, true, fits, s)))
  }

  /** Nothing fits: no snippet page, and no hit with or without its name. */
  ghost predicate NothingFits(offset: nat, total: nat, cap: nat, cuttable: nat, fits: Shape -> Result<bool>)
    requires offset <= total
  {
    if offset == total then fits(Shape(0, false, false, None)) == Ok(false)
    else cap > 0 ==>
      && SnippetsTooLong(Min(total - offset, cap), fits)
      && PassFails(cuttable, false, fits) && PassFails(cuttable, true, fits)
  }

  /** What a request for the page at `offset` is answered. */
  ghost predicate Answered(
    hits: seq<Hit>, id: Uuid, offset: nat, cap: nat, format: Format, fits: Shape -> Result<bool>, r: Reply)
  {
    if offset > |hits| then r == Failed(InvalidCursor)
    else
      var max, cuttable := Min(|hits| - offset, cap), Cuttable(hits, offset, format);
      match r
      case Rendered(p) => Fitted(hits, id, offset, cap, fits, p) && Fullest(max, cuttable, fits, p.shape)
      case Failed(InvalidCursor) => false
      case Failed(RenderFailed) => RenderingFails(max, fits)
      case Failed(BudgetTooSmall) => NothingFits(offset, |hits|, cap, cuttable, fits)
  }

  /** `snippet_page` */
  method SnippetPage(max: nat, fits: Shape -> Result<bool>) returns (r: Result<Option<nat>>)
    ensures r.Ok? && r.value.Some? ==>
              && 0 < r.value.value <= max && r.value.value >= Min(max, SNIPPET_PAGE_FLOOR)
              && fits(Shape(r.value.value, true, true, None)) == Ok(true)
              && (r.value.value == max || fits(Shape(r.value.value + 1, true, true, None)) == Ok(false))
    ensures r == Ok(None) && max > 0 ==> SnippetsTooLong(max, fits)
    ensures r.Err? ==> RenderingFails(max, fits)
  {
    var floor := Min(max, SNIPPET_PAGE_FLOOR);
    if floor == 0 {
      return Ok(None);
    }
    var count, _ := LargestFitting(max, (n: nat) => fits(Shape(n, true, true, None)));
    if count.Err? {
      ghost var n :| 0 < n <= max && fits(Shape(n, true, true, None)).Err?;
      assert Probed(max, Shape(n, true, true, None));
      return Err;
    }
    r := Ok(if count.value >= floor then Some(count.value) else None);
  }

  /** One pass of the fallback loop: the largest page without snippets, named when
      that fits too, or a lone hit with its candidates cut. */
  method PlainPage(hits: seq<Hit>, offset: nat, max: nat, names: bool, format: Format, fits: Shape -> Result<bool>)
    returns (r: Result<Option<Shape>>)
    requires max <= |hits| - offset
    ensures r.Ok? && r.value.Some? ==> PassGives(max, Cuttable(hits, offset, format), names, fits, r.value.value)
    ensures r == Ok(None) && max > 0 ==> PassFails(Cuttable(hits, offset, format), names, fits)
    ensures r.Err? ==> RenderingFails(max, fits)
  {
    var low, _ := LargestFitting(max, (n: nat) => fits(Shape(n, names, false, None)));
    if low.Err? {
      ghost var n :| 0 < n <= max && fits(Shape(n, names, false, None)).Err?;
      assert Probed(max, Shape(n, names, false, None));
      return Err;
    }
    if low.value > 0 {
      var named := Shape(low.value, true, false, None);
      var fit := fits(named);
      if fit.Err? {
        assert Probed(max, named);
        return Err;
      }
      return Ok(Some(if fit.value then named else Shape(low.value, names, false, None)));
    }
    if max > 0 && format == Json {
      r := CutPage(|hits[offset].candidates|, max, names, fits);
      return;
    }
    return Ok(None);
  }

  /** The trimming of a lone hit's candidates. */
  method CutPage(total: nat, max: nat, names: bool, fits: Shape -> Result<bool>) returns (r: Result<Option<Shape>>)
    requires max > 0 && fits(Shape(1, names, false, None)) == Ok(false)
    ensures r.Ok? && r.value.Some? ==> PassGives(max, total, names, fits, r.value.value)
    ensures r == Ok(None) ==> PassFails(total, names, fits)
    ensures r.Err? ==> RenderingFails(max, fits)
  {
    var kept, _ := LargestFitting(total, (n: nat) => fits(Shape(1, names, false, Some(n))));
    if kept.Err? {
      ghost var n :| 0 < n <= total && fits(Shape(1, names, false, Some(n))).Err?;
      assert Probed(max, Shape(1, names, false, Some(n)));
      return Err;
    }
    if total > 0 {
      var cut := Shape(1, names, false, Some(kept.value));
      var fit := fits(cut);
      if fit.Err? {
        assert Probed(max, cut);
        return Err;
      }
      if fit.value {
        return Ok(Some(cut));
      }
    }
    return Ok(None);
  }

  /** `page`: a page fits, advances and shows as much as it may; or rendering failed, or
      nothing fits at all. */
  method PageAt(
    hits: seq<Hit>, id: Uuid, offset: nat, limit: nat, budget: nat, format: Format, fits: Shape -> Result<bool>)
    returns (r: Reply)
    ensures Answered(hits, id, offset, Min(limit, budget), format, fits, r)
  {
    if offset > |hits| {
      return Failed(InvalidCursor);
    }
    var available := |hits| - offset;
    var max := Min(available, Min(limit, budget));
    var snippets := SnippetPage(max, fits);
    if snippets.Err? {
      return Failed(RenderFailed);
    }
    if snippets.value.Some? {
      return Rendered(Render(hits, id, offset, Shape(snippets.value.value, true, true, None)));
    }
    var bare := PlainPage(hits, offset, max, false, format, fits);
    if bare.Err? {
      return Failed(RenderFailed);
    }
    if bare.value.Some? {
      return Rendered(Render(hits, id, offset, bare.value.value));
    }
    var named := PlainPage(hits, offset, max, true, format, fits);
    if named.Err? {
      return Failed(RenderFailed);
    }
    if named.value.Some? {
      return Rendered(Render(hits, id, offset, named.value.value));
    }
    if available == 0 {
      var empty := Shape(0, false, false, None);
      var fit := fits(empty);
      if fit.Err? {
        assert Probed(max, empty);
        return Failed(RenderFailed);
      }
      if fit.value {
        return Rendered(Render(hits, id, offset, empty));
      }
    }
    return Failed(BudgetTooSmall);
  }

  // ------------------------------------------------------------ how much a page shows

  /** Snippets are kept whenever eight hits with them fit, and then as many as fit, where
      fitting is monotone. */
  lemma {:induction false} SnippetsWhenTheyFit(
    hits: seq<Hit>, id: Uuid, offset: nat, cap: nat, format: Format, fits: Shape -> Result<bool>, r: Reply)
    requires Answered(hits, id, offset, cap, format, fits, r) && offset < |hits| && cap > 0
    requires var max := Min(|hits| - offset, cap);
             Monotone((n: nat) => fits(Shape(n, true, true, None)), max)
             && fits(Shape(Min(max, SNIPPET_PAGE_FLOOR), true, true, None)) == Ok(true)
    ensures r != Failed(RenderFailed) ==>
              && r.Rendered? && r.page.shape == Shape(r.page.shape.count, true, true, None)
              && forall n :: r.page.shape.count < n <= Min(|hits| - offset, cap) ==> fits(Shape(n, true, true, None)) != Ok(true)
  {
    var max := Min(|hits| - offset, cap);
    var f := (n: nat) => fits(Shape(n, true, true, None));
    var floor := Min(max, SNIPPET_PAGE_FLOOR);
    forall n | 0 < n <= floor
      ensures fits(Shape(n, true, true, None)) == Ok(true)
    {
      assert f(floor) == Ok(true) ==> f(n) == Ok(true);
    }
    assert !SnippetsTooLong(max, fits);
    if r.Rendered? {
      var c := r.page.shape.count;
      forall n | c < n <= max
        ensures fits(Shape(n, true, true, None)) != Ok(true)
      {
        assert f(c + 1) == Ok(false);
        assert f(n) == fits(Shape(n, true, true, None));
      }
    }
  }

  /** When everything fits, the page shows every hit it may, with snippets. */
  lemma {:induction false} EverythingFits(
    hits: seq<Hit>, id: Uuid, offset: nat, cap: nat, format: Format, fits: Shape -> Result<bool>, r: Reply)
    requires Answered(hits, id, offset, cap, format, fits, r) && offset < |hits| && cap > 0
    requires forall shape: Shape :: shape.count <= Min(|hits| - offset, cap) ==> fits(shape) == Ok(true)
    ensures r == Rendered(Render(hits, id, offset, Shape(Min(|hits| - offset, cap), true, true, None)))
  {
    var max := Min(|hits| - offset, cap);
    assert !SnippetsTooLong(max, fits) && !RenderingFails(max, fits);
  }

  /** A page of fewer hits than asked for, with its candidates uncut, is short because one more
      plain hit does not fit. */
  lemma {:induction false} ShortPageIsFull(
    hits: seq<Hit>, id: Uuid, offset: nat, cap: nat, format: Format, fits: Shape -> Result<bool>, p: Page)
    requires Answered(hits, id, offset, cap, format, fits, Rendered(p)) && offset <= |hits|
    requires p.shape.count < Min(|hits| - offset, cap) && !p.shape.snippets && p.shape.candidates.None?
    ensures || fits(Shape(p.shape.count + 1, false, false, None)) == Ok(false)
            || (fits(Shape(1, false, false, None)) == Ok(false) && fits(Shape(p.shape.count + 1, true, false, None)) == Ok(false))
  {
    assert PassGives(Min(|hits| - offset, cap), Cuttable(hits, offset, format), false, fits, p.shape)
        || PassFails(Cuttable(hits, offset, format), false, fits);
  }

  /** `more` on a printed cursor: the page at the cursor's offset. */
  method More(
    hits: seq<Hit>, id: Uuid, cursor: string, limit: nat, budget: nat, format: Format, fits: Shape -> Result<bool>)
    returns (r: Reply)
    requires |hits| <= USIZE_MAX
    ensures var c := ParseCursor(cursor);
            if c.Some? && c.value.set_ == id then Answered(hits, id, c.value.offset, Min(limit, budget), format, fits, r)
            else r == Failed(InvalidCursor)
  {
    var c := ParseCursor(cursor);
    if c.None? || c.value.set_ != id {
      return Failed(InvalidCursor);
    }
    r := PageAt(hits, id, c.value.offset, limit, budget, format, fits);
  }

  // ------------------------------------------------------------ following cursors

  /** What one request asks: its hit cap and what fits its budget. */
  datatype Asked = Asked(cap: nat, fits: Shape -> Result<bool>)

  /** A page answered by `page` or `more`, whatever was asked. */
  ghost predicate Answers(hits: seq<Hit>, id: Uuid, offset: nat, p: Page) {
    exists asked: Asked :: Fitted(hits, id, offset, asked.cap, asked.fits, p)
  }

  /** The offset a cursor text names. */
  ghost function OffsetOf(cursor: Option<string>): Option<nat> {
    if cursor.None? then None
    else var c := ParseCursor(cursor.value); if c.None? then None else Some(c.value.offset)
  }

  /** Successful pages, the first at offset zero and each later one at the offset its
      predecessor's `next` text names, each answering its own request. */
  ghost predicate Follows(hits: seq<Hit>, id: Uuid, asked: seq<Asked>, pages: seq<Page>)
    requires |asked| == |pages|
  {
    pages != [] ==>
      var n := |pages| - 1;
      Follows(hits, id, asked[..n], pages[..n]) && AnswersAt(hits, id, NextStart(pages[..n]), asked[n], pages[n])
  }

  ghost function NextStart(pages: seq<Page>): Option<nat> {
    if pages == [] then Some(0) else OffsetOf(pages[|pages| - 1].next)
  }

  ghost predicate AnswersAt(hits: seq<Hit>, id: Uuid, start: Option<nat>, asked: Asked, p: Page) {
    start.Some? && Fitted(hits, id, start.value, asked.cap, asked.fits, p)
  }

  /** The hits the pages show, in order. */
  ghost function Emitted(pages: seq<Page>): seq<Hit> {
    if pages == [] then [] else Emitted(pages[..|pages| - 1]) + HitsOf(pages[|pages| - 1].hits)
  }

  ghost function HitsOf(shown: seq<Shown>): (r: seq<Hit>)
    ensures |r| == |shown| && forall k :: 0 <= k < |r| ==> r[k] == shown[k].hit
  {
    seq(|shown|, k requires 0 <= k < |shown| => shown[k].hit)
  }

  /** One page shows the next `count` hits, in order, at least one if any are left, and
      carries the cursor for what follows. */
  lemma {:induction false} PageHits(hits: seq<Hit>, id: Uuid, offset: nat, p: Page)
    requires Answers(hits, id, offset, p)
    ensures var end := offset + p.shape.count;
            && offset <= end <= |hits| && HitsOf(p.hits) == hits[offset..end]
            && (offset < |hits| ==> offset < end)
            && p.next == NextCursor(id, end, |hits|)
  {
    var asked: Asked :| Fitted(hits, id, offset, asked.cap, asked.fits, p);
  }

  /** A shown hit lists the first of its candidates, all of them unless the page cut them, and
      tells how many there are exactly when it cut some. */
  lemma {:induction false} CandidatesAreCut(hits: seq<Hit>, id: Uuid, offset: nat, p: Page, k: nat)
    requires Answers(hits, id, offset, p) && k < |p.hits|
    ensures var shown, all := p.hits[k], hits[offset + k].candidates;
            && |shown.candidates| == (if p.shape.candidates.Some? then Min(|all|, p.shape.candidates.value) else |all|)
            && shown.candidates <= all
            && shown.total == if |shown.candidates| < |all| then Some(|all|) else None
  {
    PageHits(hits, id, offset, p);
    var asked: Asked :| Fitted(hits, id, offset, asked.cap, asked.fits, p);
    assert p.hits[k] == Show(hits[offset + k], p.shape.candidates);
  }

  /** That cursor is absent exactly at the end, and its text names the offset it stands for. */
  lemma {:induction false} NextCursorNames(id: Uuid, end: nat, total: nat)
    requires end <= total <= USIZE_MAX
    ensures NextCursor(id, end, total).None? <==> end == total
    ensures end < total ==> OffsetOf(NextCursor(id, end, total)) == Some(end)
  {
    if end < total {
      CursorReadsBack(Cursor(id, end));
    }
  }

  /** `n` pages have shown exactly these hits, and `next` is the cursor after them. */
  ghost predicate Shows(hits: seq<Hit>, id: Uuid, n: nat, shown: seq<Hit>, next: Option<string>) {
    && shown <= hits && next == NextCursor(id, |shown|, |hits|)
    && (hits != [] ==> |shown| >= n)
  }

  lemma {:induction false} OnePageMore(hits: seq<Hit>, id: Uuid, n: nat, shown: seq<Hit>, p: Page)
    requires shown <= hits && (hits != [] ==> n <= |shown| < |hits|)
    requires Answers(hits, id, |shown|, p)
    ensures Shows(hits, id, n + 1, shown + HitsOf(p.hits), p.next)
  {
    PageHits(hits, id, |shown|, p);
    var end := |shown| + p.shape.count;
    assert shown + HitsOf(p.hits) == hits[..end];
  }

  lemma {:induction false} FollowedPrefix(hits: seq<Hit>, id: Uuid, asked: seq<Asked>, pages: seq<Page>)
    requires |asked| == |pages| && Follows(hits, id, asked, pages) && pages != [] && |hits| <= USIZE_MAX
    ensures Shows(hits, id, |pages|, Emitted(pages), pages[|pages| - 1].next)
    ensures hits == [] ==> |pages| == 1
  {
    var n := |pages| - 1;
    var front := pages[..n];
    if front == [] {
      assert Emitted(front) == [];
    } else {
      FollowedPrefix(hits, id, asked[..n], front);
      NextCursorNames(id, |Emitted(front)|, |hits|);
    }
    OnePageMore(hits, id, n, Emitted(front), pages[n]);
  }

  /** The page keeps within its own request's cap and budget. */
  ghost predicate Keeps(asked: Asked, p: Page) {
    p.shape.count <= asked.cap && asked.fits(p.shape) == Ok(true)
  }

  ghost predicate AllKeep(asked: seq<Asked>, pages: seq<Page>)
    requires |asked| == |pages|
  {
    forall k :: 0 <= k < |pages| ==> Keeps(asked[k], pages[k])
  }

  lemma {:induction false} LastPageKeeps(hits: seq<Hit>, id: Uuid, asked: seq<Asked>, pages: seq<Page>)
    requires |asked| == |pages| && Follows(hits, id, asked, pages) && pages != []
    ensures var n := |pages| - 1; Keeps(asked[n], pages[n]) && Follows(hits, id, asked[..n], pages[..n])
  {
  }

  lemma {:induction false} OneMoreKeeps(asked: seq<Asked>, pages: seq<Page>)
    requires |asked| == |pages| && pages != []
    requires var n := |pages| - 1; AllKeep(asked[..n], pages[..n]) && Keeps(asked[n], pages[n])
    ensures AllKeep(asked, pages)
  {
    var n := |pages| - 1;
    forall k | 0 <= k < |pages|
      ensures Keeps(asked[k], pages[k])
    {
      if k < n {
        assert Keeps(asked[..n][k], pages[..n][k]);
      }
    }
  }

  lemma {:induction false} EachPageKeeps(hits: seq<Hit>, id: Uuid, asked: seq<Asked>, pages: seq<Page>)
    requires |asked| == |pages| && Follows(hits, id, asked, pages)
    ensures AllKeep(asked, pages)
  {
    if pages != [] {
      var n := |pages| - 1;
      LastPageKeeps(hits, id, asked, pages);
      EachPageKeeps(hits, id, asked[..n], pages[..n]);
      OneMoreKeeps(asked, pages);
    }
  }

  /** Following `next` through successful pages, each under any limits, budget and
      fitting predicate of its own, shows every hit exactly once and in order: every page
      keeps within its own request, the pages so far show a prefix, the chain ends exactly
      when everything has been shown, and it ends within as many pages as there are hits. */
  lemma {:induction false} ChainShowsEveryHitOnce(hits: seq<Hit>, id: Uuid, asked: seq<Asked>, pages: seq<Page>)
    requires |asked| == |pages| && Follows(hits, id, asked, pages) && pages != [] && |hits| <= USIZE_MAX
    ensures AllKeep(asked, pages)
    ensures Emitted(pages) <= hits
    ensures pages[|pages| - 1].next.None? <==> Emitted(pages) == hits
    ensures |pages| <= if hits == [] then 1 else |hits|
  {
    FollowedPrefix(hits, id, asked, pages);
    EachPageKeeps(hits, id, asked, pages);
  }
}
