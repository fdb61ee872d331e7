/** `parseDates` of the popup (extension/popup.js): the date field is split
    on line breaks and commas, each piece trimmed, and empty pieces dropped. */
module Dates {
  import opened Common

  /** `value.split(/\r?\n|,/)`: a CR LF pair is one separator, a lone LF or a
      comma is one, a lone CR is an ordinary character. Like JavaScript's split,
      the empty string gives one empty piece. */
  function Split(s: string): (r: seq<string>)
    ensures |r| >= 1
    decreases |s|
  {
    if s == [] then [""]
    else if |s| >= 2 && s[0] == '\r' && s[1] == '\n' then [""] + Split(s[2..])
    else if s[0] == '\n' || s[0] == ',' then [""] + Split(s[1..])
    else Glue(s[0], Split(s[1..]))
  }

  /** An ordinary character joins the first of the pieces that follow it. */
  function Glue(c: char, pieces: seq<string>): seq<string>
    requires |pieces| >= 1
  {
    [[c] + pieces[0]] + pieces[1..]
  }

  lemma GlueAppend(c: char, x: seq<string>, y: seq<string>)
    requires |x| >= 1
    ensures Glue(c, x + y) == Glue(c, x) + y
  {
    assert (x + y)[0] == x[0];
    assert (x + y)[1..] == x[1..] + y;
  }

  /** No piece holds a comma or a line feed. */
  lemma {:induction false} SplitPieces(s: string)
    ensures forall i :: 0 <= i < |Split(s)| ==> ',' !in Split(s)[i] && '\n' !in Split(s)[i]
    decreases |s|
  {
    if s == [] {
    } else if |s| >= 2 && s[0] == '\r' && s[1] == '\n' {
      SplitPieces(s[2..]);
    } else if s[0] == '\n' || s[0] == ',' {
      SplitPieces(s[1..]);
    } else {
      SplitPieces(s[1..]);
      GluePieces(s[0], Split(s[1..]));
    }
  }

  /** Gluing an ordinary character keeps the pieces free of separators. */
  lemma GluePieces(c: char, rest: seq<string>)
    requires |rest| >= 1 && c != ',' && c != '\n'
    requires forall i :: 0 <= i < |rest| ==> ',' !in rest[i] && '\n' !in rest[i]
    ensures forall i :: 0 <= i < |Glue(c, rest)| ==> ',' !in Glue(c, rest)[i] && '\n' !in Glue(c, rest)[i]
  {
    var g := Glue(c, rest);
    assert g[0] == [c] + rest[0];
    assert forall i :: 1 <= i < |g| ==> g[i] == rest[i];
  }

  /** The separators `parseDates` splits on. */
  predicate IsSeparator(sep: string)
  {
    sep == "," || sep == "\n" || sep == "\r\n"
  }

  /** A text that starts with a separator starts with an empty piece. */
  lemma SplitAfterSeparator(sep: string, b: string)
    requires IsSeparator(sep)
    ensures Split(sep + b) == [""] + Split(b)
  {
    if sep == "\r\n" {
      assert (sep + b)[2..] == b;
    } else {
      assert (sep + b)[1..] == b;
    }
  }

  /** A text that starts with an ordinary character extends its first piece. */
  lemma SplitOrdinary(c: char, t: string)
    requires c != ',' && c != '\n'
    requires c == '\r' ==> (t == [] || t[0] != '\n')
    ensures Split([c] + t) == Glue(c, Split(t))
  {
    assert ([c] + t)[1..] == t;
  }

  /** One step of `SplitAround` past a separator at the start of `a`, for
      any splitting function `f` that starts a new piece after `head`. */
  lemma SplitAroundSeparatorStep(f: string -> seq<string>, head: string, rest: string, sep: string, b: string)
    requires f(head + (rest + sep + b)) == [""] + f(rest + sep + b)
    requires f(head + rest) == [""] + f(rest)
    requires f(rest + sep + b) == f(rest) + f(b)
    ensures f(head + rest + sep + b) == f(head + rest) + f(b)
  {
    assert head + rest + sep + b == head + (rest + sep + b);
  }

  /** `SplitAround` past a separator `head` at the start of `a`. */
  lemma SplitAroundSeparator(head: string, rest: string, sep: string, b: string)
    requires IsSeparator(head)
    requires Split(rest + sep + b) == Split(rest) + Split(b)
    ensures Split(head + rest + sep + b) == Split(head + rest) + Split(b)
  {
    SplitAfterSeparator(head, rest + sep + b);
    SplitAfterSeparator(head, rest);
    SplitAroundSeparatorStep(Split, head, rest, sep, b);
  }

  /** One step of `SplitAround` past an ordinary character at the start of `a`. */
  lemma SplitAroundOrdinaryStep(c: char, rest: string, sep: string, b: string)
    requires c != ',' && c != '\n' && IsSeparator(sep)
    requires c == '\r' ==> (rest != [] && rest[0] != '\n') || (rest == [] && sep != "\n")
    requires Split(rest + sep + b) == Split(rest) + Split(b)
    ensures Split([c] + rest + sep + b) == Split([c] + rest) + Split(b)
  {
    var t := rest + sep + b;
    assert [c] + rest + sep + b == [c] + t;
    SplitOrdinary(c, t);
    SplitOrdinary(c, rest);
    GlueAppend(c, Split(rest), Split(b));
  }

  /** `SplitAround` past a leading CR LF, given the claim for what follows it. */
  lemma SplitAroundCrLf(a: string, sep: string, b: string)
    requires |a| >= 2 && a[0] == '\r' && a[1] == '\n'
    requires Split(a[2..] + sep + b) == Split(a[2..]) + Split(b)
    ensures Split(a + sep + b) == Split(a) + Split(b)
  {
    assert a == "\r\n" + a[2..];
    SplitAroundSeparator("\r\n", a[2..], sep, b);
  }

  /** `SplitAround` past a leading comma or LF, given the claim for what follows it. */
  lemma SplitAroundSingle(a: string, sep: string, b: string)
    requires |a| >= 1 && (a[0] == '\n' || a[0] == ',')
    requires Split(a[1..] + sep + b) == Split(a[1..]) + Split(b)
    ensures Split(a + sep + b) == Split(a) + Split(b)
  {
    assert a == [a[0]] + a[1..];
    SplitAroundSeparator([a[0]], a[1..], sep, b);
  }

  /** `SplitAround` past a leading ordinary character, given the claim for what follows it. */
  lemma SplitAroundOrdinary(a: string, sep: string, b: string)
    requires |a| >= 1 && a[0] != '\n' && a[0] != ',' && IsSeparator(sep)
    requires !(|a| >= 2 && a[0] == '\r' && a[1] == '\n')
    requires sep == "\n" ==> a[|a| - 1] != '\r'
    requires Split(a[1..] + sep + b) == Split(a[1..]) + Split(b)
    ensures Split(a + sep + b) == Split(a) + Split(b)
  {
    assert a == [a[0]] + a[1..];
    SplitAroundOrdinaryStep(a[0], a[1..], sep, b);
  }

  /** Splitting distributes over a separator: the pieces of `a`, then those of
      `b`. A lone LF only separates when no CR stands before it, since the CR
      then belongs to the separator. */
  lemma {:induction false} SplitAround(a: string, sep: string, b: string)
    requires IsSeparator(sep)
    requires sep == "\n" ==> (a == [] || a[|a| - 1] != '\r')
    ensures Split(a + sep + b) == Split(a) + Split(b)
    decreases |a|
  {
    if a == [] {
      assert a + sep + b == sep + b;
      SplitAfterSeparator(sep, b);
    } else if |a| >= 2 && a[0] == '\r' && a[1] == '\n' {
      SplitAround(a[2..], sep, b);
      SplitAroundCrLf(a, sep, b);
    } else if a[0] == '\n' || a[0] == ',' {
      SplitAround(a[1..], sep, b);
      SplitAroundSingle(a, sep, b);
    } else {
      SplitAround(a[1..], sep, b);
      SplitAroundOrdinary(a, sep, b);
    }
  }

  /** A piece with no separator in it splits into itself. */
  lemma {:induction false} SplitPlain(p: string)
    requires ',' !in p && '\n' !in p
    ensures Split(p) == [p]
    decreases |p|
  {
    if p != [] {
      assert ',' !in p[1..] && '\n' !in p[1..] by {
        assert forall c :: c in p[1..] ==> c in p;
      }
      SplitPlain(p[1..]);
      assert p == [p[0]] + p[1..];
    }
  }

  /** Pieces joined by commas split back into those pieces. */
  lemma {:induction false} SplitJoin(parts: seq<string>)
    requires forall i :: 0 <= i < |parts| ==> ',' !in parts[i] && '\n' !in parts[i]
    requires |parts| >= 1
    ensures Split(Join(parts, ",")) == parts
    decreases |parts|
  {
    SplitPlain(parts[0]);
    if |parts| >= 2 {
      SplitAround(parts[0], ",", Join(parts[1..], ","));
      SplitJoin(parts[1..]);
      assert parts == [parts[0]] + parts[1..];
    } else {
      assert parts == [parts[0]];
    }
  }

  /** `.map((item) => item.trim())`. */
  function TrimAll(parts: seq<string>): (r: seq<string>)
    ensures |r| == |parts|
    ensures forall i :: 0 <= i < |r| ==> r[i] == Trim(parts[i])
  {
    seq(|parts|, i requires 0 <= i < |parts| => Trim(parts[i]))
  }

  /** What `parseDates` returns: non-empty, trimmed pieces free of separators. */
  predicate WellFormedDate(d: string)
  {
    d != [] && IsTrimmed(d) && ',' !in d && '\n' !in d
  }

  function NonEmpty(s: string): bool
  {
    s != ""
  }

  /** `parseDates(value)`. */
  function ParseDates(value: string): (r: seq<string>)
    ensures forall d :: d in r ==> WellFormedDate(d)
  {
    var pieces := Split(value);
    var trimmed := TrimAll(pieces);
    SplitPieces(value);
    Filter(trimmed, NonEmpty)
  }

  /** The dates of a text are its trimmed, non-empty pieces. */
  lemma ParseDatesOf(value: string, pieces: seq<string>)
    requires Split(value) == pieces
    ensures ParseDates(value) == Filter(TrimAll(pieces), NonEmpty)
  {
  }

  /** Parsing is compositional: the dates on either side of a separator,
      in order. */
  lemma ParseDatesAround(a: string, sep: string, b: string)
    requires IsSeparator(sep)
    requires sep == "\n" ==> (a == [] || a[|a| - 1] != '\r')
    ensures ParseDates(a + sep + b) == ParseDates(a) + ParseDates(b)
  {
    SplitAround(a, sep, b);
    TrimAllAppend(Split(a), Split(b));
    FilterAppend(TrimAll(Split(a)), TrimAll(Split(b)), NonEmpty);
  }

  /** Trimming works piece by piece. */
  lemma TrimAllAppend(x: seq<string>, y: seq<string>)
    ensures TrimAll(x + y) == TrimAll(x) + TrimAll(y)
  {
    MapAppend(Trim, x, y, TrimAll(x), TrimAll(y), TrimAll(x + y));
  }

  /** A pointwise image of a concatenation is the concatenation of the images,
      for any function `f`. */
  lemma MapAppend<T, U>(f: T -> U, x: seq<T>, y: seq<T>, fx: seq<U>, fy: seq<U>, fxy: seq<U>)
    requires |fx| == |x| && forall i :: 0 <= i < |x| ==> fx[i] == f(x[i])
    requires |fy| == |y| && forall i :: 0 <= i < |y| ==> fy[i] == f(y[i])
    requires |fxy| == |x + y| && forall i :: 0 <= i < |x + y| ==> fxy[i] == f((x + y)[i])
    ensures fxy == fx + fy
  {
    assert forall i :: 0 <= i < |x| ==> (x + y)[i] == x[i];
    assert forall i :: |x| <= i < |x + y| ==> (x + y)[i] == y[i - |x|];
  }

  /** Input made only of separators and white space gives no dates. */
  lemma BlankGivesNone(value: string)
    requires forall i :: 0 <= i < |value| ==> IsJsSpace(value[i]) || value[i] == ',' || value[i] == '\n'
    ensures ParseDates(value) == []
  {
    var pieces := Split(value);
    SplitChars(value);
    SplitPieces(value);
    var trimmed := TrimAll(pieces);
    forall i | 0 <= i < |trimmed| ensures !NonEmpty(trimmed[i]) {
      forall k | 0 <= k < |pieces[i]| ensures IsJsSpace(pieces[i][k]) {
        var c := pieces[i][k];
        assert c in pieces[i];
        assert c in value;
        var j :| 0 <= j < |value| && value[j] == c;
      }
    }
    FilterNone(trimmed, NonEmpty);
  }

  /** Every character of a piece comes from the input. */
  lemma {:induction false} SplitChars(s: string)
    ensures forall i, c :: 0 <= i < |Split(s)| && c in Split(s)[i] ==> c in s
    decreases |s|
  {
    if s == [] {
    } else if |s| >= 2 && s[0] == '\r' && s[1] == '\n' {
      SplitChars(s[2..]);
      assert forall c :: c in s[2..] ==> c in s;
    } else if s[0] == '\n' || s[0] == ',' {
      SplitChars(s[1..]);
      assert forall c :: c in s[1..] ==> c in s;
    } else {
      SplitChars(s[1..]);
      GlueChars(s, Split(s[1..]));
    }
  }

  /** The pieces glued to the first character draw on the input. */
  lemma GlueChars(s: string, rest: seq<string>)
    requires |s| >= 1 && |rest| >= 1
    requires forall i, c :: 0 <= i < |rest| && c in rest[i] ==> c in s[1..]
    ensures forall i, c :: 0 <= i < |Glue(s[0], rest)| && c in Glue(s[0], rest)[i] ==> c in s
  {
    var g := Glue(s[0], rest);
    assert forall c :: c in s[1..] ==> c in s;
    assert g[0] == [s[0]] + rest[0];
    assert forall i :: 1 <= i < |g| ==> g[i] == rest[i];
  }

  /** Well-formed dates joined by commas parse back as the same list. */
  lemma ParseDatesJoin(dates: seq<string>)
    requires forall i :: 0 <= i < |dates| ==> WellFormedDate(dates[i])
    ensures ParseDates(Join(dates, ",")) == dates
  {
    if dates == [] {
      assert Join(dates, ",") == "";
      ParseDatesEmpty();
    } else {
      SplitJoin(dates);
      ParseDatesOfDates(Join(dates, ","), dates);
    }
  }

  /** The empty text holds no dates. */
  lemma ParseDatesEmpty()
    ensures ParseDates("") == []
  {
    var blank: seq<string> := [""];
    TrimAllTrimmed(blank);
    assert Filter(blank, NonEmpty) == [];
    ParseDatesOf("", blank);
  }

  /** Pieces that are already trimmed are left as they are. */
  lemma TrimAllTrimmed(parts: seq<string>)
    requires forall i :: 0 <= i < |parts| ==> IsTrimmed(parts[i])
    ensures TrimAll(parts) == parts
  {
  }

  /** A text that splits into well-formed dates parses as exactly those. */
  lemma ParseDatesOfDates(value: string, dates: seq<string>)
    requires Split(value) == dates
    requires forall i :: 0 <= i < |dates| ==> WellFormedDate(dates[i])
    ensures ParseDates(value) == dates
  {
    ParseDatesOf(value, dates);
    assert TrimAll(dates) == dates;
    FilterKeepsAll(dates, NonEmpty);
  }
}
