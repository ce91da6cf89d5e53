/** The catalogue side of the player: which discovered items are visible
    and clickable, and which pagination control a page request selects.
    The browser's answers (positions, widths, labels) are inputs. */
module Catalogue {
  import opened Maybe
  import opened Text

  /** One discovered item, reduced to the x coordinate of its left edge:
      its text is only printed, so the model does not carry it. */
  datatype Item = Item(x: int)

  /** What a refresh reads: the result container's left edge and width, and
      every discovered item in page order. */
  datatype View = View(left: int, width: int, items: seq<Item>)

  /** An item lies in the container's visible band `[left, left + width)`. */
  predicate InBand(left: int, width: int, it: Item) {
    left <= it.x < left + width
  }

  /** The visible track list: the items inside the band, in page order. */
  function Visible(left: int, width: int, items: seq<Item>): (r: seq<Item>)
    ensures |r| <= |items|
    ensures forall it :: it in r <==> it in items && InBand(left, width, it)
    ensures forall i :: 0 <= i < |r| ==> InBand(left, width, r[i])
  {
    if |items| == 0 then []
    else if InBand(left, width, items[0]) then [items[0]] + Visible(left, width, items[1..])
    else Visible(left, width, items[1..])
  }

  /** The filter keeps page order: filtering a concatenation filters each
      part and concatenates the results. */
  lemma {:induction false} VisibleAppend(left: int, width: int, a: seq<Item>, b: seq<Item>)
    ensures Visible(left, width, a + b) == Visible(left, width, a) + Visible(left, width, b)
    decreases |a|
  {
    if |a| > 0 {
      assert (a + b)[1..] == a[1..] + b;
      VisibleAppend(left, width, a[1..], b);
    } else {
      assert a + b == b;
    }
  }

  /** Nothing is dropped exactly when every item is inside the band. */
  lemma {:induction false} VisibleKeepsAll(left: int, width: int, items: seq<Item>)
    ensures Visible(left, width, items) == items
            <==> forall i :: 0 <= i < |items| ==> InBand(left, width, items[i])
    decreases |items|
  {
    if |items| > 0 {
      VisibleKeepsAll(left, width, items[1..]);
      if !InBand(left, width, items[0]) {
        assert |Visible(left, width, items)| < |items|;
      }
    }
  }

  /** Filtering one more item appends it exactly when it lies in the band. */
  lemma VisibleSnoc(left: int, width: int, a: seq<Item>, t: Item)
    ensures Visible(left, width, a + [t])
            == Visible(left, width, a) + (if InBand(left, width, t) then [t] else [])
  {
    VisibleAppend(left, width, a, [t]);
    assert [t][1..] == [];
  }

  /** `tracks()`: the list comprehension that builds the track list, as a
      loop over the discovered items. */
  method VisibleTracks(v: View) returns (list: seq<Item>)
    ensures list == Visible(v.left, v.width, v.items)
  {
    var right := v.left + v.width;
    list := [];
    var i := 0;
    while i < |v.items|
      invariant 0 <= i <= |v.items|
      invariant list == Visible(v.left, v.width, v.items[..i])
    {
      var t := v.items[i];
      VisibleSnoc(v.left, v.width, v.items[..i], t);
      assert v.items[..i + 1] == v.items[..i] + [t];
      if v.left <= t.x < right {
        list := list + [t];
      }
      i := i + 1;
    }
    assert v.items[..i] == v.items;
  }

  /** The size of the track list a refresh produces. */
  function VisibleCount(v: View): (n: nat)
    ensures n <= |v.items|
  {
    |Visible(v.left, v.width, v.items)|
  }

  /** The argument of `more_tracks`: a string (by default "next") or an int. */
  datatype PageArg = Named(name: string) | Numbered(n: int)

  /** `str(page)`: a string is its own text, an int its decimal text. */
  function PageText(p: PageArg): (t: string)
    ensures p.Named? ==> t == p.name
    ensures p.Numbered? ==> t == IntToString(p.n)
    ensures p.Numbered? ==> && |t| >= 1 && (t[0] == '-' || IsDigit(t[0]))
                            && (forall i :: 1 <= i < |t| ==> IsDigit(t[i]))
                            && ParseInt(t) == p.n
  {
    match p
    case Named(name) => name
    case Numbered(n) => IntToStringRoundTrip(n); IntToString(n)
  }

  /** `caption.lower().strip()`. */
  function Normalize(caption: string): (r: string)
    ensures forall i :: 0 <= i < |r| ==> !IsUpper(r[i])
    ensures r == [] || (!IsSpace(r[0]) && !IsSpace(r[|r| - 1]))
  {
    Strip(Lower(caption))
  }

  /** A control's label selects a page when it matches `str(page)`. */
  function Selects(caption: string, p: PageArg): (b: bool)
    ensures b ==> forall i :: 0 <= i < |PageText(p)| ==> !IsUpper(PageText(p)[i])
    ensures b ==> PageText(p) == [] || (!IsSpace(PageText(p)[0]) && !IsSpace(PageText(p)[|PageText(p)| - 1]))
  {
    Normalize(caption) == PageText(p)
  }

  /** The first index at or after `start` where `texts` holds `target`. */
  function FirstIndexFrom(texts: seq<string>, target: string, start: nat): (r: Option<nat>)
    requires start <= |texts|
    ensures r.Some? ==> start <= r.value < |texts| && texts[r.value] == target
                        && forall j :: start <= j < r.value ==> texts[j] != target
    ensures r.None? <==> forall j :: start <= j < |texts| ==> texts[j] != target
    decreases |texts| - start
  {
    if start == |texts| then None
    else if texts[start] == target then Some(start)
    else FirstIndexFrom(texts, target, start + 1)
  }

  /** `next_btn[0]` of `more_tracks`: the first control whose label selects
      the page, or nothing when no label does. */
  function FindPage(labels: seq<string>, p: PageArg): (r: Option<nat>)
    ensures r.Some? ==> r.value < |labels| && Selects(labels[r.value], p)
                        && forall j :: 0 <= j < r.value ==> !Selects(labels[j], p)
    ensures r.None? <==> forall j :: 0 <= j < |labels| ==> !Selects(labels[j], p)
  {
    var target := PageText(p);
    var texts := seq(|labels|, i requires 0 <= i < |labels| => Normalize(labels[i]));
    assert forall j :: 0 <= j < |labels| ==> (texts[j] == target <==> Selects(labels[j], p));
    FirstIndexFrom(texts, target, 0)
  }

  /** A text that `Normalize` can never produce: it holds an upper-case
      letter, or starts or ends with whitespace. */
  predicate NeverNormal(t: string) {
    (exists i :: 0 <= i < |t| && IsUpper(t[i]))
    || (|t| > 0 && (IsSpace(t[0]) || IsSpace(t[|t| - 1])))
  }

  /** A text with the two properties every normalised label has differs
      from any text `Normalize` can never produce. */
  lemma NormalFormDiffers(n: string, t: string)
    requires forall k :: 0 <= k < |n| ==> !IsUpper(n[k])
    requires n == [] || (!IsSpace(n[0]) && !IsSpace(n[|n| - 1]))
    requires NeverNormal(t)
    ensures n != t
  {
    if exists i :: 0 <= i < |t| && IsUpper(t[i]) {
      var i :| 0 <= i < |t| && IsUpper(t[i]);
      assert i >= |n| || n[i] != t[i];
    }
  }

  lemma NormalizeNeverGives(caption: string, t: string)
    requires NeverNormal(t)
    ensures Normalize(caption) != t
  {
    NormalFormDiffers(Normalize(caption), t);
  }

  /** A page whose text holds an upper-case letter, or starts or ends with
      whitespace, can never be selected: every label is lower-cased and
      stripped before the comparison. */
  lemma UnselectablePage(labels: seq<string>, p: PageArg)
    requires NeverNormal(PageText(p))
    ensures FindPage(labels, p) == None
  {
    forall j | 0 <= j < |labels|
      ensures !Selects(labels[j], p)
    {
      NormalizeNeverGives(labels[j], PageText(p));
    }
  }

  /** A label already in lower case and without surrounding whitespace is
      its own normal form. */
  lemma NormalizeCanonical(caption: string)
    requires forall i :: 0 <= i < |caption| ==> !IsUpper(caption[i])
    requires caption == [] || (!IsSpace(caption[0]) && !IsSpace(caption[|caption| - 1]))
    ensures Normalize(caption) == caption
  {
    assert Lower(caption) == caption;
    if |caption| > 0 {
      StripPadding([], caption, []);
      assert [] + caption + [] == caption;
    }
  }

  /** A label made only of whitespace normalises to the empty text, the
      same as an empty label. */
  lemma NormalizeBlank(caption: string)
    requires forall i :: 0 <= i < |caption| ==> IsSpace(caption[i])
    ensures Normalize(caption) == []
  {
    assert forall i :: 0 <= i < |caption| ==> IsSpace(Lower(caption)[i]);
  }

  /** Padding a label with whitespace changes nothing: a label that does
      not itself start or end with whitespace normalises to its lower-case
      form whatever whitespace surrounds it. */
  lemma NormalizeIgnoresPadding(pre: string, w: string, post: string)
    requires forall i :: 0 <= i < |pre| ==> IsSpace(pre[i])
    requires forall i :: 0 <= i < |post| ==> IsSpace(post[i])
    requires |w| > 0 && !IsSpace(w[0]) && !IsSpace(w[|w| - 1])
    ensures Normalize(pre + w + post) == Lower(w)
  {
    LowerKeepsPadding(pre, w, post);
    StripPadding(pre, Lower(w), post);
  }

  /** So the default request `more_tracks('next')` is answered by a control
      whose label reads "Next", "NEXT" or "next", padded in any way. */
  lemma NextSelectedDespitePadding(pre: string, w: string, post: string)
    requires forall i :: 0 <= i < |pre| ==> IsSpace(pre[i])
    requires forall i :: 0 <= i < |post| ==> IsSpace(post[i])
    requires |w| > 0 && !IsSpace(w[0]) && !IsSpace(w[|w| - 1])
    requires Lower(w) == "next"
    ensures Selects(pre + w + post, Named("next"))
  {
    NormalizeIgnoresPadding(pre, w, post);
  }
}
