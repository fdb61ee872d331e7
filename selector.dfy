/** Selector building in the content script (extension/contentScript.js):
    `cssEscape`, `buildSelector` and `uniqueSelector`. The DOM is abstracted
    to the ancestor chain of the element: `chain[0]` is the element,
    `chain[k + 1]` the parent element of `chain[k]`, and the chain ends where
    `parentElement` is null. The element the walk stops at (`stopAt`,
    `document.body` for `uniqueSelector`) is given by its position in the
    chain, or None when it is not on it. */
module Selector {
  import opened Common

  /** What the walk reads of an element: its tag name, its id attribute ("" when
      absent) and the tag names of its earlier element siblings. */
  datatype Element = Element(tagName: string, id: string, previousSiblingTags: seq<string>)

  // ---------------------------------------------------------------------
  // cssEscape

  /** The class the fallback escapes: C0 and C1 controls, DEL, and
      ``!"#$%&'()*+,./:;<=>?@[]`{|}~``. */
  predicate Special(c: char)
  {
    ('\0' <= c <= '\U{1F}') || ('\U{7F}' <= c <= '\U{9F}')
    || ('!' <= c <= '/' && c != '-')
    || (':' <= c <= '@') || c == '[' || c == ']' || c == '`' || ('{' <= c <= '~')
  }

  /** The fallback of `cssEscape`: one backslash before every character of the
      class, every other character (the backslash and `-` among them) as it is. */
  function CssEscapeFallback(s: string): (r: string)
    ensures |r| >= |s|
    ensures (forall i :: 0 <= i < |s| ==> !Special(s[i])) ==> r == s
  {
    if s == [] then []
    else (if Special(s[0]) then ['\\', s[0]] else [s[0]]) + CssEscapeFallback(s[1..])
  }

  /** `cssEscape`: the host's `CSS.escape` when there is one, else the fallback. */
  function CssEscape(native: Option<string -> string>, s: string): (r: string)
    ensures native.None? ==> r == CssEscapeFallback(s)
  {
    match native
    case Some(escape) => escape(s)
    case None => CssEscapeFallback(s)
  }

  /** The fallback works character by character. */
  lemma {:induction false} FallbackAppend(a: string, b: string)
    ensures CssEscapeFallback(a + b) == CssEscapeFallback(a) + CssEscapeFallback(b)
  {
    if a == [] {
      assert a + b == b;
    } else {
      assert (a + b)[0] == a[0];
      assert (a + b)[1..] == a[1..] + b;
      FallbackAppend(a[1..], b);
    }
  }

  /** The character that starts an escaped string is never one of the class:
      it is either a backslash or a character left alone. */
  lemma FallbackStartsPlain(s: string)
    requires s != []
    ensures CssEscapeFallback(s) != [] && !Special(CssEscapeFallback(s)[0])
  {
  }

  /** Reads an escaped string back: a backslash before a character of the
      class is dropped; everything else is kept. */
  function Unescape(s: string): string
  {
    if s == [] then []
    else if |s| >= 2 && s[0] == '\\' && Special(s[1]) then [s[1]] + Unescape(s[2..])
    else [s[0]] + Unescape(s[1..])
  }

  /** The fallback loses nothing: unescaping its output gives the identifier back. */
  lemma {:induction false} FallbackRoundTrip(s: string)
    ensures Unescape(CssEscapeFallback(s)) == s
  {
    if s != [] {
      var rest := CssEscapeFallback(s[1..]);
      FallbackRoundTrip(s[1..]);
      if Special(s[0]) {
        UnescapeSpecial(s[0], rest);
      } else {
        if s[1..] != [] {
          FallbackStartsPlain(s[1..]);
        }
        UnescapePlain(s[0], rest);
      }
      assert s == [s[0]] + s[1..];
    }
  }

  /** An escaped character of the class reads back as itself. */
  lemma UnescapeSpecial(c: char, rest: string)
    requires Special(c)
    ensures Unescape(['\\', c] + rest) == [c] + Unescape(rest)
  {
    var out := ['\\', c] + rest;
    assert out[0] == '\\' && out[1] == c;
    assert out[2..] == rest;
  }

  /** A character followed by one outside the class reads back as itself. */
  lemma UnescapePlain(c: char, rest: string)
    requires !Special(c)
    requires rest == [] || !Special(rest[0])
    ensures Unescape([c] + rest) == [c] + Unescape(rest)
  {
    var out := [c] + rest;
    assert out[0] == c;
    assert |out| >= 2 ==> out[1] == rest[0];
    assert out[1..] == rest;
  }

  /** Example: `a.b` escapes to `a\.b`, and `x-1\y` is unchanged. */
  lemma FallbackExample()
    ensures CssEscapeFallback("a.b") == "a\\.b"
    ensures CssEscapeFallback("x-1\\y") == "x-1\\y"
  {
    var s := "a.b";
    assert Special(s[1]);
    assert CssEscapeFallback(s) == "a" + CssEscapeFallback(s[1..]);
    assert CssEscapeFallback(s[1..]) == "\\." + CssEscapeFallback(s[2..]);
    var t := "x-1\\y";
    assert forall i :: 0 <= i < |t| ==> !Special(t[i]);
  }

  // ---------------------------------------------------------------------
  // buildSelector

  /** `toLowerCase` on ASCII letters. */
  function Lower(s: string): string
  {
    seq(|s|, i requires 0 <= i < |s| => LowerChar(s[i]))
  }

  function LowerChar(c: char): char
  {
    if 'A' <= c <= 'Z' then (c as int + 32) as char else c
  }

  /** The number of tag names in `tags` equal to `tag`. */
  function CountTag(tags: seq<string>, tag: string): (n: nat)
    ensures n == multiset(tags)[tag]
  {
    if tags == [] then 0
    else
      assert tags == [tags[0]] + tags[1..];
      (if tags[0] == tag then 1 else 0) + CountTag(tags[1..], tag)
  }

  /** The inner loop of `buildSelector`: walks the earlier siblings and counts
      those of the same tag. */
  method SiblingIndex(e: Element) returns (index: nat)
    ensures index == 1 + multiset(e.previousSiblingTags)[e.tagName]
    ensures index == 1 + CountTag(e.previousSiblingTags, e.tagName)
  {
    index := 1;
    var k := 0;
    while k < |e.previousSiblingTags|
      invariant 0 <= k <= |e.previousSiblingTags|
      invariant index == 1 + multiset(e.previousSiblingTags[..k])[e.tagName]
    {
      assert e.previousSiblingTags[..k + 1] == e.previousSiblingTags[..k] + [e.previousSiblingTags[k]];
      if e.previousSiblingTags[k] == e.tagName {
        index := index + 1;
      }
      k := k + 1;
    }
    assert e.previousSiblingTags[..k] == e.previousSiblingTags;
  }

  /** `:nth-of-type(${index})`. */
  function NthOfType(index: nat): string
  {
    ":nth-of-type(" + NatToString(index) + ")"
  }

  /** The segment of an element without an id: `tag:nth-of-type(k)`, with `k`
      one more than the number of earlier siblings of the same tag. */
  function Segment(e: Element): (r: string)
    ensures |r| > 0
  {
    Lower(e.tagName) + NthOfType(1 + CountTag(e.previousSiblingTags, e.tagName))
  }

  /** The segment of an element with an id. */
  function IdSegment(native: Option<string -> string>, e: Element): (r: string)
    ensures |r| > 0 && r[0] == '#'
  {
    "#" + CssEscape(native, e.id)
  }

  /** The segment an element contributes to the selector. */
  function SegmentOf(native: Option<string -> string>, e: Element): (r: string)
    ensures |r| > 0
  {
    if e.id != "" then IdSegment(native, e) else Segment(e)
  }

  /** `SegmentOf` for one page, as a function of the element. */
  function SegmentFn(native: Option<string -> string>): Element -> string
  {
    e => SegmentOf(native, e)
  }

  /** How many elements the walk visits from position `k` upwards: it ends at
      the end of the chain or at `stopAt`, and right after the first element
      with an id. */
  function WalkLength(chain: seq<Element>, stopAt: Option<nat>, k: nat): (n: nat)
    ensures k + n <= |chain| || n == 0
    decreases |chain| - k
  {
    if k >= |chain| || stopAt == Some(k) then 0
    else if chain[k].id != "" then 1
    else 1 + WalkLength(chain, stopAt, k + 1)
  }

  /** `f` applied to `xs[n - 1]`, ..., `xs[0]`, in that order. */
  function MapBackwards<T, U>(f: T -> U, xs: seq<T>, n: nat): (r: seq<U>)
    requires n <= |xs|
    ensures |r| == n
  {
    if n == 0 then [] else [f(xs[n - 1])] + MapBackwards(f, xs, n - 1)
  }

  lemma {:induction false} MapBackwardsIndex<T, U>(f: T -> U, xs: seq<T>, n: nat)
    requires n <= |xs|
    ensures forall i :: 0 <= i < n ==> MapBackwards(f, xs, n)[i] == f(xs[n - 1 - i])
  {
    if n > 0 {
      MapBackwardsIndex(f, xs, n - 1);
      var r := MapBackwards(f, xs, n);
      forall i | 0 < i < n ensures r[i] == f(xs[n - 1 - i]) {
        assert r[i] == MapBackwards(f, xs, n - 1)[i - 1];
      }
    }
  }

  /** The segments of the first `n` elements of the chain, outermost first. */
  function SegmentsOf(native: Option<string -> string>, chain: seq<Element>, n: nat): (r: seq<string>)
    requires n <= |chain|
    ensures |r| == n
  {
    MapBackwards(SegmentFn(native), chain, n)
  }

  /** The `i`-th segment, outermost first, is that of the `n - 1 - i`-th element. */
  lemma SegmentsOfIndex(native: Option<string -> string>, chain: seq<Element>, n: nat)
    requires n <= |chain|
    ensures forall i :: 0 <= i < n ==> SegmentsOf(native, chain, n)[i] == SegmentOf(native, chain[n - 1 - i])
  {
    MapBackwardsIndex(SegmentFn(native), chain, n);
  }

  /** Where the loop has stopped, it has visited the whole walk. */
  lemma WalkDone(chain: seq<Element>, stopAt: Option<nat>, k: nat)
    requires k <= |chain|
    requires || ((k == |chain| || stopAt == Some(k)) && WalkLength(chain, stopAt, 0) == k + WalkLength(chain, stopAt, k))
             || WalkLength(chain, stopAt, 0) == k
    ensures WalkLength(chain, stopAt, 0) == k
  {
  }

  /** The loop's step at one element: its segment goes in front; an element
      with an id completes the walk, any other lets it go on. */
  lemma WalkStep(seg: Element -> string, chain: seq<Element>, stopAt: Option<nat>, k: nat, segments: seq<string>,
                 segment: string)
    requires k < |chain| && stopAt != Some(k)
    requires WalkLength(chain, stopAt, 0) == k + WalkLength(chain, stopAt, k)
    requires segments == MapBackwards(seg, chain, k)
    requires segment == seg(chain[k])
    ensures chain[k].id != "" ==> WalkLength(chain, stopAt, 0) == k + 1
    ensures chain[k].id == "" ==> WalkLength(chain, stopAt, 0) == k + 1 + WalkLength(chain, stopAt, k + 1)
    ensures [segment] + segments == MapBackwards(seg, chain, k + 1)
  {
  }

  /** The selector of `buildSelector(chain[0], stopAt)`. */
  function SelectorOf(native: Option<string -> string>, chain: seq<Element>, stopAt: Option<nat>): string
  {
    Join(SegmentsOf(native, chain, WalkLength(chain, stopAt, 0)), " > ")
  }

  /** `buildSelector(element, stopAt)`; an empty chain stands for a null element. */
  method BuildSelector(native: Option<string -> string>, chain: seq<Element>, stopAt: Option<nat>)
    returns (selector: string)
    ensures selector == SelectorOf(native, chain, stopAt)
  {
    if |chain| == 0 || stopAt == Some(0) {
      SelectorEmptyIff(native, chain, stopAt);
      return "";
    }
    if chain[0].id != "" {
      selector := "#" + CssEscape(native, chain[0].id);
      SelectorOfIdElement(native, chain, stopAt);
      return selector;
    }
    var segments := WalkSegments(native, chain, stopAt);
    selector := Join(segments, " > ");
  }

  /** One pass of the loop body: the segment of the current element, its
      escaped id when it has one, otherwise its tag and sibling index. */
  method ElementSegment(native: Option<string -> string>, current: Element) returns (segment: string)
    ensures segment == SegmentOf(native, current)
  {
    segment := Lower(current.tagName);
    if current.id != "" {
      segment := "#" + CssEscape(native, current.id);
      return segment;
    }
    var index := SiblingIndex(current);
    segment := segment + NthOfType(index);
  }

  /** The `while` loop of `buildSelector`: the segments of the elements it
      visits on the way up, outermost first. */
  method WalkSegments(native: Option<string -> string>, chain: seq<Element>, stopAt: Option<nat>)
    returns (segments: seq<string>)
    ensures segments == SegmentsOf(native, chain, WalkLength(chain, stopAt, 0))
  {
    ghost var seg := SegmentFn(native);
    segments := [];
    var k := 0;
    while k < |chain| && stopAt != Some(k)
      invariant 0 <= k <= |chain|
      invariant WalkLength(chain, stopAt, 0) == k + WalkLength(chain, stopAt, k)
      invariant segments == MapBackwards(seg, chain, k)
      decreases |chain| - k
    {
      var segment := ElementSegment(native, chain[k]);
      WalkStep(seg, chain, stopAt, k, segments, segment);
      segments := [segment] + segments;
      k := k + 1;
      if chain[k - 1].id != "" {
        break;
      }
    }
    WalkDone(chain, stopAt, k);
  }

  /** `uniqueSelector(element)`: the selector up to `document.body`, or the
      lower-cased tag name when that is empty. */
  method UniqueSelector(native: Option<string -> string>, chain: seq<Element>, body: Option<nat>)
    returns (selector: string)
    ensures chain == [] ==> selector == ""
    ensures chain != [] && body != Some(0) ==> selector == SelectorOf(native, chain, body) && selector != ""
    ensures chain != [] && body == Some(0) ==> selector == Lower(chain[0].tagName)
  {
    if chain == [] {
      return "";
    }
    selector := BuildSelector(native, chain, body);
    SelectorEmptyIff(native, chain, body);
    if selector != "" {
      return selector;
    }
    return Lower(chain[0].tagName);
  }

  // ---------------------------------------------------------------------
  // What the walk produces.

  /** A join of non-empty parts is empty exactly when there are no parts. */
  lemma {:induction false} JoinNonEmpty(parts: seq<string>, sep: string)
    requires forall i :: 0 <= i < |parts| ==> parts[i] != ""
    ensures Join(parts, sep) == "" <==> parts == []
    decreases |parts|
  {
    if |parts| >= 2 {
      JoinNonEmpty(parts[1..], sep);
    }
  }

  /** The selector is empty exactly when the element is null or is `stopAt`. */
  lemma SelectorEmptyIff(native: Option<string -> string>, chain: seq<Element>, stopAt: Option<nat>)
    ensures SelectorOf(native, chain, stopAt) == "" <==> chain == [] || stopAt == Some(0)
  {
    SegmentsOfIndex(native, chain, WalkLength(chain, stopAt, 0));
    JoinNonEmpty(SegmentsOf(native, chain, WalkLength(chain, stopAt, 0)), " > ");
  }

  /** An element with an id is selected by that id alone. */
  lemma SelectorOfIdElement(native: Option<string -> string>, chain: seq<Element>, stopAt: Option<nat>)
    requires chain != [] && stopAt != Some(0) && chain[0].id != ""
    ensures SelectorOf(native, chain, stopAt) == "#" + CssEscape(native, chain[0].id)
  {
    assert SegmentsOf(native, chain, 1) == [IdSegment(native, chain[0])];
  }

  /** The selector is its segments, outermost first, joined by ` > `: the
      last segment belongs to the element itself and the first to the
      outermost element visited. */
  lemma SelectorSegments(native: Option<string -> string>, chain: seq<Element>, stopAt: Option<nat>)
    requires chain != [] && stopAt != Some(0)
    ensures var n := WalkLength(chain, stopAt, 0);
      var segs := SegmentsOf(native, chain, n);
      && 1 <= n <= |chain|
      && segs[n - 1] == SegmentOf(native, chain[0])
      && segs[0] == SegmentOf(native, chain[n - 1])
  {
    SegmentsOfIndex(native, chain, WalkLength(chain, stopAt, 0));
  }

  /** The walk never passes `stopAt`, and every element it passes on the way
      (all but the last it visits) has no id, so contributes `tag:nth-of-type(k)`. */
  lemma {:induction false} WalkVisits(chain: seq<Element>, stopAt: Option<nat>, k: nat)
    ensures forall i :: k <= i < k + WalkLength(chain, stopAt, k) ==> i < |chain| && stopAt != Some(i)
    ensures forall i :: k <= i < k + WalkLength(chain, stopAt, k) - 1 ==> chain[i].id == ""
    decreases |chain| - k
  {
    if k >= |chain| || stopAt == Some(k) {
      assert WalkLength(chain, stopAt, k) == 0;
    } else if chain[k].id != "" {
      assert WalkLength(chain, stopAt, k) == 1;
    } else {
      WalkVisits(chain, stopAt, k + 1);
      assert WalkLength(chain, stopAt, k) == 1 + WalkLength(chain, stopAt, k + 1);
    }
  }

  /** The walk ends at the end of the chain, at `stopAt`, or right after the
      first element with an id. */
  lemma {:induction false} WalkEnds(chain: seq<Element>, stopAt: Option<nat>, k: nat)
    requires k <= |chain|
    ensures var n := WalkLength(chain, stopAt, k);
      k + n == |chain| || stopAt == Some(k + n) || (n > 0 && chain[k + n - 1].id != "")
    decreases |chain| - k
  {
    if k < |chain| && stopAt != Some(k) && chain[k].id == "" {
      WalkEnds(chain, stopAt, k + 1);
    }
  }

  /** Example: the second `td` of its row is `td:nth-of-type(2)`, and a
      table with id `t1` is `#t1`. */
  lemma SegmentExample()
    ensures Segment(Element("TD", "", ["TD"])) == "td:nth-of-type(2)"
    ensures IdSegment(None, Element("TABLE", "t1", [])) == "#t1"
  {
    TdSegment("TD", ["TD"]);
    IdSegmentT1("t1");
  }

  lemma TdSegment(tag: string, siblings: seq<string>)
    requires tag == "TD" && siblings == ["TD"]
    ensures Segment(Element(tag, "", siblings)) == "td:nth-of-type(2)"
  {
    var lower, count := Lower(tag), CountTag(siblings, tag);
    LowerTd(tag);
    assert count == 1;
    TdText(lower);
  }

  lemma LowerTd(tag: string)
    requires tag == "TD"
    ensures Lower(tag) == "td"
  {
  }

  lemma TdText(lower: string)
    requires lower == "td"
    ensures lower + NthOfType(2) == "td:nth-of-type(2)"
  {
    DigitTwo(2);
  }

  lemma DigitTwo(n: nat)
    requires n == 2
    ensures NatToString(n) == "2"
  {
  }

  lemma IdSegmentT1(id: string)
    requires id == "t1"
    ensures IdSegment(None, Element("TABLE", id, [])) == "#t1"
  {
    assert !Special(id[0]) && !Special(id[1]);
    assert CssEscapeFallback(id) == id;
  }
}
