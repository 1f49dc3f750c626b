/**
 * The helpers of one news card: the shortened preview text, the category colour and glow,
 * the relative publication time, and the four buttons that only signed-in readers may use.
 * Toasts and navigation are returned as effects instead of being performed.
 */
module NewsCard {
  import opened Wrappers
  import opened Text

  /** `truncateText(text, maxLength = 150)`. */
  const DefaultPreviewLength: nat := 150

  function TruncateText(text: string, maxLength: Option<nat>): (r: string)
    ensures var m := maxLength.GetOr(DefaultPreviewLength);
      && (|text| <= m ==> r == text)
      && (|text| > m ==> |r| == m + 3 && r[..m] == text[..m] && r[m..] == "...")
  {
    var m := maxLength.GetOr(DefaultPreviewLength);
    if |text| <= m then text else text[..m] + "..."
  }

  /** A preview is never longer than the limit plus the ellipsis, and starts like the text. */
  lemma TruncateBounds(text: string, maxLength: Option<nat>)
    ensures var m := maxLength.GetOr(DefaultPreviewLength);
      var r := TruncateText(text, maxLength);
      && |r| <= m + 3
      && (|text| <= m <==> |r| <= m)
      && StartsWith(r, text[..if |text| <= m then |text| else m])
  {
    var m := maxLength.GetOr(DefaultPreviewLength);
    var r := TruncateText(text, maxLength);
    if |text| > m {
      assert r[..m] == text[..m];
    } else {
      assert text[..|text|] == text;
    }
  }

  /** The categories with their own colours, lower-case. */
  const KnownCategories: seq<string> := ["tech and innovation", "finance and money", "world and politics"]

  const CategoryColors: seq<string> := [
    "linear-gradient(45deg, #8b5cf6, #06b6d4)",
    "linear-gradient(45deg, #10b981, #059669)",
    "linear-gradient(45deg, #ef4444, #f97316)"
  ]
  const DefaultColor: string := "linear-gradient(45deg, #8b5cf6, #7c3aed)"

  const CategoryGlows: seq<string> := [
    "0 0 20px rgba(139, 92, 246, 0.6)",
    "0 0 20px rgba(16, 185, 129, 0.6)",
    "0 0 20px rgba(239, 68, 68, 0.6)"
  ]
  const DefaultGlow: string := "0 0 20px rgba(139, 92, 246, 0.6)"

  /** `table[category?.toLowerCase()] || table.default` over a table with three known keys. */
  function LookupCategory(category: Option<string>, table: seq<string>, default: string): (r: string)
    requires |table| == |KnownCategories|
    ensures forall i :: (0 <= i < |KnownCategories| && category.Some? && ToLower(category.value) == KnownCategories[i]
                         ==> r == table[i])
    ensures category.None? || ToLower(category.value) !in KnownCategories ==> r == default
  {
    if category.None? then default
    else
      var key := ToLower(category.value);
      if key == KnownCategories[0] then table[0]
      else if key == KnownCategories[1] then table[1]
      else if key == KnownCategories[2] then table[2]
      else default
  }

  /** `getCategoryColor`. */
  function CategoryColor(category: Option<string>): (r: string)
    ensures forall i :: (0 <= i < 3 && category.Some? && ToLower(category.value) == KnownCategories[i]
                         ==> r == CategoryColors[i])
    ensures category.None? || ToLower(category.value) !in KnownCategories ==> r == DefaultColor
  {
    LookupCategory(category, CategoryColors, DefaultColor)
  }

  /** `getCategoryGlow`. */
  function CategoryGlow(category: Option<string>): (r: string)
    ensures forall i :: (0 <= i < 3 && category.Some? && ToLower(category.value) == KnownCategories[i]
                         ==> r == CategoryGlows[i])
    ensures category.None? || ToLower(category.value) !in KnownCategories ==> r == DefaultGlow
  {
    LookupCategory(category, CategoryGlows, DefaultGlow)
  }

  /** Lower-casing twice is lower-casing once. */
  lemma {:induction false} ToLowerIdempotent(s: string)
    ensures ToLower(ToLower(s)) == ToLower(s)
  {
    var once := ToLower(s);
    forall i | 0 <= i < |s|
      ensures ToLower(once)[i] == once[i]
    {
      assert once[i] == LowerChar(s[i]);
    }
  }

  /**
   * The lookup ignores case: two spellings that lower-case alike get the same colour and
   * glow, and a category gets the same look as its lower-case form.
   */
  lemma CategoryLookIgnoresCase(a: string, b: string)
    requires ToLower(a) == ToLower(b)
    ensures CategoryColor(Some(a)) == CategoryColor(Some(b))
    ensures CategoryGlow(Some(a)) == CategoryGlow(Some(b))
    ensures CategoryColor(Some(ToLower(a))) == CategoryColor(Some(a))
  {
    ToLowerIdempotent(a);
  }

  /** The colours of the three known categories differ from each other and from the default. */
  lemma KnownCategoriesLookDistinct()
    ensures forall i, j :: 0 <= i < j < 3 ==> CategoryColors[i] != CategoryColors[j]
    ensures forall i :: 0 <= i < 3 ==> CategoryColors[i] != DefaultColor
    ensures CategoryGlows[0] == DefaultGlow
  {
    assert CategoryColors[0][24] != CategoryColors[1][24] && CategoryColors[0][24] != CategoryColors[2][24];
    assert CategoryColors[1][24] != CategoryColors[2][24];
    assert CategoryColors[0][33] != DefaultColor[33];
    assert CategoryColors[1][24] != DefaultColor[24] && CategoryColors[2][24] != DefaultColor[24];
  }

  const HourMs: nat := 1000 * 60 * 60
  const DayMs: nat := 1000 * 60 * 60 * 24

  /** `Math.ceil(a / b)` for a non-negative dividend. */
  function CeilDiv(a: nat, b: nat): (q: nat)
    requires b > 0
    ensures q * b >= a
    ensures q == 0 || (q - 1) * b < a
  {
    if a % b == 0 then a / b else a / b + 1
  }

  /** Rounding up stays within `k` exactly when the dividend is at most `k` divisors. */
  lemma CeilDivAtMost(a: nat, b: nat, k: nat)
    requires b > 0
    ensures CeilDiv(a, b) <= k <==> a <= k * b
  {
    var q := CeilDiv(a, b);
    if q <= k {
      assert q * b <= k * b;
    } else {
      assert (q - 1) * b >= k * b;
    }
  }

  function Abs(x: int): nat { if x < 0 then -x else x }

  /**
   * The text for a distance of `diff` milliseconds: rounded up to whole hours when that is
   * at most 23 hours and to whole days otherwise.
   */
  function FormatDistance(diff: nat): (r: string)
    ensures diff <= 23 * HourMs ==> r == NatToString(CeilDiv(diff, HourMs)) + "h ago"
    ensures diff > 23 * HourMs ==> r == NatToString(CeilDiv(diff, DayMs)) + "d ago"
  {
    var hours := CeilDiv(diff, HourMs);
    CeilDivAtMost(diff, HourMs, 23);
    if hours < 24 then NatToString(hours) + "h ago"
    else NatToString(CeilDiv(diff, DayMs)) + "d ago"
  }

  /**
   * `formatDate`: the text for the distance between now and the date; an unreadable date
   * (`None`) makes every quantity NaN and gives "NaNd ago".
   */
  function FormatDate(date: Option<int>, now: int): (r: string)
    ensures date.None? ==> r == "NaNd ago"
    ensures date.Some? && Abs(now - date.value) <= 23 * HourMs ==>
      r == NatToString(CeilDiv(Abs(now - date.value), HourMs)) + "h ago"
    ensures date.Some? && Abs(now - date.value) > 23 * HourMs ==>
      r == NatToString(CeilDiv(Abs(now - date.value), DayMs)) + "d ago"
  {
    if date.None? then "NaNd ago" else FormatDistance(Abs(now - date.value))
  }

  /** The text is the same for a date that far in the past or in the future. */
  lemma FormatDateIgnoresDirection(now: int, offset: int)
    ensures FormatDate(Some(now - offset), now) == FormatDate(Some(now + offset), now)
  {
    assert FormatDate(Some(now - offset), now) == FormatDistance(Abs(offset));
    assert FormatDate(Some(now + offset), now) == FormatDistance(Abs(offset));
  }

  /**
   * The shown number of hours runs from 0 (same instant) to 23; anything beyond 23 hours
   * is shown in days, starting at 1, so a date between 23 and 24 hours away reads "1d ago".
   */
  lemma FormatDateRanges(date: int, now: int)
    ensures date == now ==> FormatDate(Some(date), now) == "0h ago"
    ensures 23 * HourMs < Abs(now - date) <= DayMs ==> FormatDate(Some(date), now) == "1d ago"
    ensures Abs(now - date) <= 23 * HourMs ==> CeilDiv(Abs(now - date), HourMs) <= 23
    ensures Abs(now - date) > 23 * HourMs ==> CeilDiv(Abs(now - date), DayMs) >= 1
  {
    var d := Abs(now - date);
    CeilDivAtMost(d, HourMs, 23);
    CeilDivAtMost(d, DayMs, 1);
    if 23 * HourMs < d <= DayMs {
      assert NatToString(1) == "1";
    }
    if date == now {
      assert NatToString(0) == "0";
    }
  }

  /** The number at the head of the text is the rounded distance. */
  lemma FormatDateNumber(date: int, now: int)
    ensures var d := Abs(now - date);
      LeadingNumber(FormatDate(Some(date), now))
        == if d <= 23 * HourMs then CeilDiv(d, HourMs) else CeilDiv(d, DayMs)
  {
    var d := Abs(now - date);
    var n := if d <= 23 * HourMs then CeilDiv(d, HourMs) else CeilDiv(d, DayMs);
    var s := NatToString(n);
    var text := FormatDate(Some(date), now);
    assert text == s + (if d <= 23 * HourMs then "h ago" else "d ago");
    assert text[..|s|] == s && !IsDigit(text[|s|]);
    NumberAtHead(n, text);
  }

  /** The card's news item, as far as the card looks at it. */
  datatype CardNews = CardNews(id: string, category: Option<string>, content: string, publishedAt: Option<int>)

  /** The four buttons of a card. */
  datatype CardButton = ReadMore | Like | Bookmark | Share

  /** What a button does: a toast, a navigation, or a call of one of the card's callbacks. */
  datatype Effect =
    | ErrorToast(message: string)
    | Navigate(path: string)
    | CallLike(id: string)
    | CallBookmark(id: string)
    | CallShare(news: CardNews)

  predicate IsCallback(e: Effect) {
    e.CallLike? || e.CallBookmark? || e.CallShare?
  }

  /** The toast shown to a reader who is not signed in. */
  function SignInMessage(button: CardButton): string {
    match button
    case ReadMore => "Please sign in to read full articles"
    case Like => "Please sign in to like articles"
    case Bookmark => "Please sign in to bookmark articles"
    case Share => "Please sign in to share articles"
  }

  /** The path of an article page. */
  function ArticlePath(id: string): string { "/article/" + id }

  /**
   * `handleReadMore`, `handleLike`, `handleBookmark`, `handleShare`: a reader who is not
   * signed in gets a toast and is sent home; otherwise read-more opens the article and the
   * other buttons call their callback when the card was given one (`onLike?.(…)`).
   */
  function Press(button: CardButton, authenticated: bool, news: CardNews,
                 provided: set<CardButton>): (effects: seq<Effect>)
    ensures !authenticated ==> effects == [ErrorToast(SignInMessage(button)), Navigate("/")]
    ensures authenticated ==> forall e :: e in effects ==> !e.ErrorToast?
    ensures authenticated && button == ReadMore ==> effects == [Navigate(ArticlePath(news.id))]
    ensures authenticated && button != ReadMore ==>
      (|effects| == 1 <==> button in provided) && |effects| <= 1
    ensures authenticated && button == Like && button in provided ==> effects == [CallLike(news.id)]
    ensures authenticated && button == Bookmark && button in provided ==> effects == [CallBookmark(news.id)]
    ensures authenticated && button == Share && button in provided ==> effects == [CallShare(news)]
  {
    if !authenticated then [ErrorToast(SignInMessage(button)), Navigate("/")]
    else match button
      case ReadMore => [Navigate(ArticlePath(news.id))]
      case Like => if Like in provided then [CallLike(news.id)] else []
      case Bookmark => if Bookmark in provided then [CallBookmark(news.id)] else []
      case Share => if Share in provided then [CallShare(news)] else []
  }

  /**
   * A reader who is not signed in never reaches a callback nor an article page: every
   * press ends on the home page.
   */
  lemma SignedOutNeverReachesContent(button: CardButton, news: CardNews, provided: set<CardButton>)
    ensures var effects := Press(button, false, news, provided);
      && (forall e :: e in effects ==> !IsCallback(e))
      && (forall e :: e in effects && e.Navigate? ==> e.path == "/")
      && effects[|effects| - 1] == Navigate("/")
  {
  }

  /** A signed-in reader's press never navigates home and never shows the sign-in toast. */
  lemma SignedInActsOnTheItem(button: CardButton, news: CardNews, provided: set<CardButton>)
    ensures var effects := Press(button, true, news, provided);
      && (forall e :: e in effects && e.Navigate? ==> e.path == ArticlePath(news.id) && e.path != "/")
      && (forall e :: e in effects && (e.CallLike? || e.CallBookmark?) ==> e.id == news.id)
      && (forall e :: e in effects && e.CallShare? ==> e.news == news)
  {
  }
}
