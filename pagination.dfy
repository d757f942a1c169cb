/** Reading the episode-page dropdown: which option labels name episode
    pages, how many episodes the show has, and which global episode indices
    a page label covers. */
module Pagination {
  import opened Wrappers
  import opened PyStr

  const EpisodesPerPage := 100
  /** The count assumed when there is no page dropdown or reading it failed. */
  const SinglePageTotal := 5
  /** The page label assumed before the dropdown has been read. */
  const DefaultPageLabel := "01-100"

  /** An option text the dropdown reader keeps: non-empty and not all whitespace. */
  predicate IsNonBlank(text: string) {
    text != "" && Strip(text) != ""
  }

  /** The option texts the dropdown reader collects. */
  function NonBlank(texts: seq<string>): (r: seq<string>)
    ensures forall i :: 0 <= i < |r| ==> IsNonBlank(r[i])
  {
    if texts == [] then []
    else if IsNonBlank(texts[0]) then [texts[0]] + NonBlank(texts[1..])
    else NonBlank(texts[1..])
  }

  /** A text is collected exactly when it is among the options and is non-blank. */
  lemma {:induction false} NonBlankMembership(texts: seq<string>, x: string)
    ensures x in NonBlank(texts) <==> x in texts && IsNonBlank(x)
  {
    if texts != [] {
      NonBlankMembership(texts[1..], x);
      assert x in texts <==> x == texts[0] || x in texts[1..];
    }
  }

  /** The collected texts keep the order of the options. */
  lemma {:induction false} NonBlankIsSubsequence(texts: seq<string>)
    ensures IsSubsequence(NonBlank(texts), texts)
  {
    if texts != [] {
      NonBlankIsSubsequence(texts[1..]);
      var rest := NonBlank(texts[1..]);
      if !IsNonBlank(texts[0]) && rest != [] {
        assert rest[0] != texts[0];
      }
    }
  }

  /** An episode-page label: a digit run such as "7", or a text with a '-'
      that is all digits once '-' and ' ' are removed, such as "01-100". */
  predicate IsEpisodePageLabel(name: string) {
    ('-' in name && IsDigitStr(RemoveChar(RemoveChar(name, '-'), ' '))) || IsDigitStr(name)
  }

  /** The labels kept by the filter, in their original order. */
  function EpisodePageLabels(labels: seq<string>): (r: seq<string>)
    ensures forall i :: 0 <= i < |r| ==> IsEpisodePageLabel(r[i])
  {
    if labels == [] then []
    else if IsEpisodePageLabel(labels[0]) then [labels[0]] + EpisodePageLabels(labels[1..])
    else EpisodePageLabels(labels[1..])
  }

  /** The filtering loop over the dropdown's option labels. */
  method FilterPageLabels(labels: seq<string>) returns (kept: seq<string>)
    ensures kept == EpisodePageLabels(labels)
  {
    kept := [];
    for i := 0 to |labels|
      invariant kept + EpisodePageLabels(labels[i..]) == EpisodePageLabels(labels)
    {
      assert labels[i..][1..] == labels[i + 1..];
      if IsEpisodePageLabel(labels[i]) {
        kept := kept + [labels[i]];
      }
    }
    assert labels[|labels|..] == [];
  }

  /** `xs` can be obtained from `ys` by deleting elements. */
  predicate IsSubsequence<T(==)>(xs: seq<T>, ys: seq<T>)
    decreases |ys|
  {
    if xs == [] then true
    else if ys == [] then false
    else if xs[0] == ys[0] then IsSubsequence(xs[1..], ys[1..])
    else IsSubsequence(xs, ys[1..])
  }

  /** The filter keeps the episode-page labels in the order the dropdown lists them. */
  lemma {:induction false} EpisodePageLabelsIsSubsequence(labels: seq<string>)
    ensures IsSubsequence(EpisodePageLabels(labels), labels)
  {
    if labels != [] {
      EpisodePageLabelsIsSubsequence(labels[1..]);
      var rest := EpisodePageLabels(labels[1..]);
      if !IsEpisodePageLabel(labels[0]) && rest != [] {
        assert rest[0] != labels[0];
      }
    }
  }

  /** A label is kept exactly when it is in the input and is an episode-page label. */
  lemma {:induction false} EpisodePageLabelsMembership(labels: seq<string>, x: string)
    ensures x in EpisodePageLabels(labels) <==> x in labels && IsEpisodePageLabel(x)
  {
    if labels != [] {
      EpisodePageLabelsMembership(labels[1..], x);
      assert x in labels <==> x == labels[0] || x in labels[1..];
    }
  }

  lemma {:induction false} LStripEmptyAllSpace(s: string)
    requires LStrip(s) == []
    ensures forall i :: 0 <= i < |s| ==> IsSpace(s[i])
  {
    if s != [] {
      LStripEmptyAllSpace(s[1..]);
      assert forall i :: 1 <= i < |s| ==> s[i] == s[1..][i - 1];
    }
  }

  lemma {:induction false} RStripEmptyAllSpace(s: string)
    requires RStrip(s) == []
    ensures forall i :: 0 <= i < |s| ==> IsSpace(s[i])
  {
    if s != [] {
      RStripEmptyAllSpace(s[..|s| - 1]);
      assert forall i :: 0 <= i < |s| - 1 ==> s[i] == s[..|s| - 1][i];
    }
  }

  /** Every episode-page label survives the blank-option check. */
  lemma EpisodePageLabelIsNonBlank(name: string)
    requires IsEpisodePageLabel(name)
    ensures IsNonBlank(name)
  {
    var k :| 0 <= k < |name| && (name[k] == '-' || IsDigit(name[k]));
    assert !IsSpace(name[k]) by {
      if name[k] == '-' { assert !IsSpace('-'); } else { assert IsDigit(name[k]); }
    }
    if Strip(name) == [] {
      var l := LStrip(name);
      if l == [] {
        LStripEmptyAllSpace(name);
      } else {
        RStripEmptyAllSpace(l);
      }
    }
  }

  /** Dropping blank options before the filter changes nothing. */
  lemma {:induction false} BlankOptionsNeverKept(texts: seq<string>)
    ensures EpisodePageLabels(NonBlank(texts)) == EpisodePageLabels(texts)
  {
    if texts != [] {
      BlankOptionsNeverKept(texts[1..]);
      if IsEpisodePageLabel(texts[0]) {
        EpisodePageLabelIsNonBlank(texts[0]);
      }
    }
  }

  /** What the page-dropdown detection observed. `current` is the text of
      the dropdown's current selection, when there is one and it was read. */
  datatype PageDetection =
    | NoPageDropdown                                          // no "Page" dropdown, or looking for it raised
    | Dropdown(current: Option<string>, options: seq<string>) // every option text was read
    | RaisedReading(current: Option<string>, read: seq<string>) // reading raised after the texts `read`
    | RaisedClosing(current: Option<string>, options: seq<string>) // closing the dropdown raised, after the filter

  /** The total derived from the kept labels: the end of a final "start-end"
      label, the number of a final plain label, or 100 when none is kept. */
  function TotalFromLabels(kept: seq<string>): (r: int)
    ensures kept == [] ==> r == EpisodesPerPage
    ensures kept != [] && '-' in kept[|kept| - 1] ==>
      var parts := Split(kept[|kept| - 1], '-');
      if |parts| == 2 && PyInt(parts[1]).Some? then r == PyInt(parts[1]).value
      else r == |kept| * EpisodesPerPage
  {
    if kept == [] then EpisodesPerPage
    else
      var last := kept[|kept| - 1];
      if '-' in last then
        var parts := Split(last, '-');
        // a failed unpacking or int() falls back to one hundred per page
        if |parts| == 2 && PyInt(parts[1]).Some? then PyInt(parts[1]).value
        else |kept| * EpisodesPerPage
      else
        match PyInt(last)
        case Some(n) => n
        // int() raising here escapes to the detection's own handler
        case None => SinglePageTotal
  }

  /** `total_episodes` as the page detection leaves it: 5 unless every
      option was read and the dropdown closed, otherwise the total from the
      episode-page labels, whether or not blank options were dropped first. */
  function TotalEpisodes(d: PageDetection): (r: int)
    ensures !d.Dropdown? ==> r == SinglePageTotal
    ensures d.Dropdown? ==> r == TotalFromLabels(EpisodePageLabels(d.options))
  {
    match d
    case Dropdown(_, options) =>
      BlankOptionsNeverKept(options);
      TotalFromLabels(EpisodePageLabels(NonBlank(options)))
    case _ => SinglePageTotal
  }

  /** `available_pages` when the detection ends: nothing without a dropdown,
      the filtered labels once the filter ran, and the unfiltered non-blank
      texts read so far when reading the options raised. */
  function DetectedPages(d: PageDetection): (r: seq<string>)
    ensures d.NoPageDropdown? ==> r == []
    ensures d.Dropdown? || d.RaisedClosing? ==> r == EpisodePageLabels(d.options)
    ensures d.RaisedReading? ==> r == NonBlank(d.read)
    ensures d.RaisedReading? ==> IsSubsequence(r, d.read) && forall i :: 0 <= i < |r| ==> IsNonBlank(r[i])
  {
    match d
    case NoPageDropdown => []
    case Dropdown(_, options) =>
      BlankOptionsNeverKept(options);
      EpisodePageLabels(NonBlank(options))
    case RaisedClosing(_, options) =>
      BlankOptionsNeverKept(options);
      EpisodePageLabels(NonBlank(options))
    case RaisedReading(_, read) =>
      NonBlankIsSubsequence(read);
      NonBlank(read)
  }

  /** `current_page` when the detection ends: the dropdown's current
      selection if it was read, otherwise "01-100". */
  function CurrentPage(d: PageDetection): string {
    if !d.NoPageDropdown? && d.current.Some? then d.current.value else DefaultPageLabel
  }

  /** The labels the page loop walks after the detection. */
  function WalkedPages(d: PageDetection): (r: seq<string>)
    ensures |r| >= 1
    ensures d.NoPageDropdown? ==> r == [DefaultPageLabel]
    ensures DetectedPages(d) != [] ==> r == DetectedPages(d)
    ensures DetectedPages(d) == [] ==> r == [CurrentPage(d)]
  {
    PagesToWalk(DetectedPages(d), CurrentPage(d))
  }

  /** A final label "a-b" written with decimal numerals gives a total of `b`. */
  lemma TotalOfRangeLabel(kept: seq<string>, z1: nat, a: nat, z2: nat, b: nat)
    requires kept != [] && kept[|kept| - 1] == Numeral(z1, a) + "-" + Numeral(z2, b)
    ensures TotalFromLabels(kept) == b
  {
    var last := kept[|kept| - 1];
    assert '-' in last by { assert last[|Numeral(z1, a)|] == '-'; }
    DigitsHaveNoDash(Numeral(z1, a));
    DigitsHaveNoDash(Numeral(z2, b));
    SplitAround(Numeral(z1, a), '-', Numeral(z2, b));
    PyIntOfNumeral(z2, b);
  }

  /** A final plain label `n` gives a total of `n`. */
  lemma TotalOfPlainLabel(kept: seq<string>, z: nat, n: nat)
    requires kept != [] && kept[|kept| - 1] == Numeral(z, n)
    ensures TotalFromLabels(kept) == n
  {
    DigitsHaveNoDash(Numeral(z, n));
    PyIntOfNumeral(z, n);
  }

  /** A dropdown none of whose options names an episode page gives 100. */
  lemma TotalWithoutEpisodeOptions(current: Option<string>, options: seq<string>)
    requires forall i :: 0 <= i < |options| ==> !IsEpisodePageLabel(options[i])
    ensures TotalEpisodes(Dropdown(current, options)) == EpisodesPerPage
  {
    BlankOptionsNeverKept(options);
    var kept := EpisodePageLabels(options);
    if kept != [] {
      EpisodePageLabelsMembership(options, kept[0]);
    }
  }

  /** The detected total is never negative. */
  lemma TotalEpisodesNonNegative(d: PageDetection)
    ensures TotalEpisodes(d) >= 0
  {
    if d.Dropdown? {
      var kept := EpisodePageLabels(NonBlank(d.options));
      if kept != [] {
        var last := kept[|kept| - 1];
        if '-' in last {
          var parts := Split(last, '-');
          if |parts| == 2 {
            PyIntNonNegative(parts[1]);
          }
        } else {
          PyIntNonNegative(last);
        }
      }
    }
  }

  lemma DigitsHaveNoDash(s: string)
    requires IsDigitStr(s)
    ensures '-' !in s
  {
    assert forall i :: 0 <= i < |s| ==> s[i] != '-' by {
      forall i | 0 <= i < |s| ensures s[i] != '-' { assert IsDigit(s[i]); }
    }
  }

  /** The global episode indices a page covers: from `start` (0-based,
      inclusive) to `end`. */
  datatype Span = Span(start: int, end: int)

  /** The covered range of the page with this label and position, holding
      `slotCount` episode slots: `a - 1` to `b` for a label "a-b", otherwise
      `pageIndex * 100` onward for `slotCount` slots. */
  function PageRange(name: string, pageIndex: nat, slotCount: nat): (r: Span)
    ensures r.start >= -1
  {
    var fallback := Span(pageIndex * EpisodesPerPage, pageIndex * EpisodesPerPage + slotCount);
    if '-' in name then
      var parts := Split(name, '-');
      if |parts| == 2 && PyInt(parts[0]).Some? && PyInt(parts[1]).Some? then
        PyIntNonNegative(parts[0]);
        Span(PyInt(parts[0]).value - 1, PyInt(parts[1]).value)
      else fallback
    else fallback
  }

  /** A label "a-b" of decimal numerals covers indices `a - 1` up to `b`,
      whatever its position and slot count: "01-100" is [0, 100). */
  lemma PageRangeOfNumerals(z1: nat, a: nat, z2: nat, b: nat, pageIndex: nat, slotCount: nat)
    ensures PageRange(Numeral(z1, a) + "-" + Numeral(z2, b), pageIndex, slotCount) == Span(a - 1, b)
  {
    var name := Numeral(z1, a) + "-" + Numeral(z2, b);
    assert '-' in name by { assert name[|Numeral(z1, a)|] == '-'; }
    DigitsHaveNoDash(Numeral(z1, a));
    DigitsHaveNoDash(Numeral(z2, b));
    SplitAround(Numeral(z1, a), '-', Numeral(z2, b));
    PyIntOfNumeral(z1, a);
    PyIntOfNumeral(z2, b);
  }

  /** A page label that is not two integers around one '-' is placed by its position: it starts at
      `pageIndex * 100` and spans exactly its slots. */
  lemma PageRangeByPosition(name: string, pageIndex: nat, slotCount: nat)
    requires var parts := Split(name, '-');
      !('-' in name && |parts| == 2 && PyInt(parts[0]).Some? && PyInt(parts[1]).Some?)
    ensures PageRange(name, pageIndex, slotCount).start == pageIndex * EpisodesPerPage
    ensures PageRange(name, pageIndex, slotCount).end - PageRange(name, pageIndex, slotCount).start == slotCount
  {
  }

  /** A text of digits and '-' that starts with a digit and has a '-'
      passes the episode-page test, however many '-' it holds. */
  lemma DashedDigitsAreLabels(name: string)
    requires '-' in name && IsDigit(name[0])
    requires forall i :: 0 <= i < |name| ==> IsDigit(name[i]) || name[i] == '-'
    ensures IsEpisodePageLabel(name)
  {
    var r := RemoveChar(name, '-');
    assert r == [name[0]] + RemoveChar(name[1..], '-');
    forall i | 0 <= i < |r|
      ensures IsDigit(r[i])
    {
      assert r[i] in r;
    }
    assert forall i :: 0 <= i < |r| ==> r[i] != ' ';
  }

  /** Three digit runs joined by '-' pass the episode-page test. */
  lemma ThreeNumeralsAreLabel(a: string, b: string, c: string)
    requires IsDigitStr(a) && IsDigitStr(b) && IsDigitStr(c)
    ensures IsEpisodePageLabel(a + "-" + b + "-" + c)
  {
    var name := a + "-" + b + "-" + c;
    forall i | 0 <= i < |name|
      ensures IsDigit(name[i]) || name[i] == '-'
    {
      if i < |a| {
        assert name[i] == a[i];
      } else if |a| < i < |a| + 1 + |b| {
        assert name[i] == b[i - |a| - 1];
      } else if i > |a| + 1 + |b| {
        assert name[i] == c[i - |a| - 2 - |b|];
      }
    }
    assert name[|a|] == '-';
    assert name[0] == a[0];
    DashedDigitsAreLabels(name);
  }

  /** Three digit runs joined by '-' split into three parts. */
  lemma ThreeNumeralsSplit(a: string, b: string, c: string)
    requires IsDigitStr(a) && IsDigitStr(b) && IsDigitStr(c)
    ensures '-' in a + "-" + b + "-" + c
    ensures |Split(a + "-" + b + "-" + c, '-')| == 3
  {
    var name := a + "-" + b + "-" + c;
    DigitsHaveNoDash(a);
    DigitsHaveNoDash(b);
    DigitsHaveNoDash(c);
    assert name == a + ['-'] + (b + ['-'] + c);
    SplitCons(a, '-', b + ['-'] + c);
    SplitAround(b, '-', c);
    assert name[|a|] == '-';
  }

  /** A label such as "1-2-3", three numbers joined by '-', is kept by the
      filter but does not unpack into two parts: as the last label it makes
      the total one hundred per kept page, and its page is placed by its
      position. */
  lemma ThreePartLabelFallsBack(kept: seq<string>, x: nat, y: nat, z: nat, slotCount: nat)
    requires kept != [] && kept[|kept| - 1] == Dec(x) + "-" + Dec(y) + "-" + Dec(z)
    ensures IsEpisodePageLabel(kept[|kept| - 1])
    ensures TotalFromLabels(kept) == |kept| * EpisodesPerPage
    ensures PageRange(kept[|kept| - 1], |kept| - 1, slotCount)
         == Span((|kept| - 1) * EpisodesPerPage, (|kept| - 1) * EpisodesPerPage + slotCount)
  {
    ThreeNumeralsAreLabel(Dec(x), Dec(y), Dec(z));
    ThreeNumeralsSplit(Dec(x), Dec(y), Dec(z));
  }

  /** The total taken from a final "a-b" label is the end of that page's range. */
  lemma TotalIsLastPageEnd(kept: seq<string>, slotCount: nat)
    requires kept != []
    requires var parts := Split(kept[|kept| - 1], '-');
      '-' in kept[|kept| - 1] && |parts| == 2 && PyInt(parts[0]).Some? && PyInt(parts[1]).Some?
    ensures TotalFromLabels(kept) == PageRange(kept[|kept| - 1], |kept| - 1, slotCount).end
  {
  }

  /** The labels the page loop walks: the filtered labels, or the current
      page's label alone when none was kept. */
  function PagesToWalk(found: seq<string>, currentPage: string): (r: seq<string>)
    ensures |r| >= 1
    ensures found != [] ==> r == found
    ensures found == [] ==> r == [currentPage]
  {
    if found == [] then [currentPage] else found
  }
}
