/** The small text filters of a show's pages: the genre chips, the
    metadata line and the poster's CSS `style` attribute. */
module Details {
  import opened Wrappers
  import opened PyStr

  /** The chip texts that are not genres. */
  const IrrelevantTags: seq<string> :=
    ["TV", "PG-13", "Airing", "2025", "2024", "23 min", "24 min", "SUB", "DUB", "ONA"]

  predicate IsGenre(tag: string) {
    tag !in IrrelevantTags && !StartsWith(tag, "EP")
  }

  /** The genre filter over the chip texts, in their order. */
  function Genres(tags: seq<string>): (r: seq<string>)
    ensures |r| <= |tags|
    ensures forall k :: 0 <= k < |r| ==> IsGenre(r[k])
  {
    if tags == [] then []
    else if IsGenre(tags[0]) then [tags[0]] + Genres(tags[1..])
    else Genres(tags[1..])
  }

  /** A chip text is kept exactly when it is present, is not one of the
      listed tags, and does not start with "EP". */
  lemma {:induction false} GenresMembership(tags: seq<string>, x: string)
    ensures x in Genres(tags) <==> x in tags && x !in IrrelevantTags && !StartsWith(x, "EP")
  {
    if tags != [] {
      GenresMembership(tags[1..], x);
      assert x in tags <==> x == tags[0] || x in tags[1..];
    }
  }

  /** The separator text the metadata filter drops: the bullet U+2022 as it
      reads when its UTF-8 bytes are decoded as Windows-1252. */
  const Bullet: string := ['\U{e2}', '\U{20ac}', '\U{a2}']

  predicate IsMetadataText(text: string) {
    text != "" && Strip(text) != Bullet
  }

  /** The metadata filter: every non-empty text that is not the bullet,
      stripped. */
  function Metadata(texts: seq<string>): (r: seq<string>)
    ensures |r| <= |texts|
    ensures forall k :: 0 <= k < |r| ==> r[k] != Bullet
  {
    if texts == [] then []
    else if IsMetadataText(texts[0]) then [Strip(texts[0])] + Metadata(texts[1..])
    else Metadata(texts[1..])
  }

  /** A string is a metadata entry exactly when it is the stripped form of
      some non-empty text that is not the bullet. */
  lemma {:induction false} MetadataMembership(texts: seq<string>, x: string)
    ensures x in Metadata(texts) <==> exists t :: t in texts && IsMetadataText(t) && Strip(t) == x
  {
    if texts != [] {
      MetadataMembership(texts[1..], x);
      if IsMetadataText(texts[0]) && Strip(texts[0]) == x {
        assert texts[0] in texts;
      }
      if x in Metadata(texts) && !(IsMetadataText(texts[0]) && Strip(texts[0]) == x) {
        var t :| t in texts[1..] && IsMetadataText(t) && Strip(t) == x;
        assert t in texts;
      }
      if exists t :: t in texts && IsMetadataText(t) && Strip(t) == x {
        var t :| t in texts && IsMetadataText(t) && Strip(t) == x;
        if t != texts[0] {
          assert t in texts[1..];
        }
      }
    }
  }

  lemma LStripOfTrimmed(s: string)
    requires s == [] || !IsSpace(s[0])
    ensures LStrip(s) == s
  {
  }

  lemma RStripOfTrimmed(s: string)
    requires s == [] || !IsSpace(s[|s| - 1])
    ensures RStrip(s) == s
  {
  }

  /** Stripping twice is stripping once. */
  lemma StripIdempotent(s: string)
    ensures Strip(Strip(s)) == Strip(s)
  {
    var t := Strip(s);
    LStripOfTrimmed(t);
    RStripOfTrimmed(t);
  }

  /** Every metadata entry is already stripped and is not the bullet; a
      text of blanks only survives as the empty string. */
  lemma {:induction false} MetadataEntriesStripped(texts: seq<string>)
    ensures forall k :: 0 <= k < |Metadata(texts)| ==> Strip(Metadata(texts)[k]) == Metadata(texts)[k]
  {
    if texts != [] {
      MetadataEntriesStripped(texts[1..]);
      StripIdempotent(texts[0]);
    }
  }

  /** A text of blanks alone is kept as "". */
  lemma BlankMetadataKeptEmpty()
    ensures Metadata(["  "]) == [""]
  {
    assert Strip("  ") == "" by {
      assert LStrip("  ") == LStrip(" ") == LStrip("");
    }
  }

  const UrlOpen := "url(\""
  const UrlClose := "\")"

  /** The poster address read from a `style` attribute: the text after the
      first `url("`, cut at a second `url("`, then cut at the first `")`;
      `None` when the attribute is missing, empty or has no `url("`. */
  function PosterPath(style: Option<string>): (r: Option<string>)
    ensures r.Some? <==> style.Some? && style.value != "" && Find(style.value, UrlOpen).Some?
    ensures r.Some? ==> forall j :: !IsAt(r.value, j, UrlClose)
  {
    match style
    case None => None
    case Some(s) =>
      if s == [] then None
      else match After(s, UrlOpen)
        case None => None
        case Some(rest) =>
          BeforeHasNoOccurrence(Before(rest, UrlOpen), UrlClose);
          Some(Before(Before(rest, UrlOpen), UrlClose))
  }

  /** With no `url("` in the prefix, the first `url("` is the one after it. */
  lemma OpenAfterPrefix(prefix: string, rest: string)
    requires forall j :: !IsAt(prefix, j, UrlOpen)
    ensures After(prefix + UrlOpen + rest, UrlOpen) == Some(rest)
  {
    var s := prefix + UrlOpen + rest;
    var n := |prefix|;
    assert s[n..n + 5] == UrlOpen;
    forall j | 0 <= j < n
      ensures !IsAt(s, j, UrlOpen)
    {
      if j + 5 <= n {
        assert s[j..j + 5] == prefix[j..j + 5];
        assert !IsAt(prefix, j, UrlOpen);
      } else {
        assert s[n] == 'u' && UrlOpen[n - j] != 'u';
        assert s[j..j + 5][n - j] == s[n];
      }
    }
    FindFirst(s, UrlOpen, n);
    assert s[n + 5..] == rest;
  }

  /** No `url("` starts inside a path free of '"' and '(', nor in the `")`
      closing it: cutting at a second `url("` keeps the path and its close. */
  lemma CutKeepsPath(path: string, suffix: string)
    requires '"' !in path && '(' !in path
    ensures var cut := Before(path + UrlClose + suffix, UrlOpen);
      |cut| >= |path| + 2 && cut[..|path| + 2] == path + UrlClose
  {
    var rest := path + UrlClose + suffix;
    forall j | 0 <= j < |path| + 2
      ensures !IsAt(rest, j, UrlOpen)
    {
      if j + 5 <= |rest| {
        var w := rest[j..j + 5];
        if j + 5 <= |path| {
          assert rest[j + 4] == path[j + 4] && path[j + 4] in path;
          assert w[4] == rest[j + 4] && w[4] != '"';
        } else if j + 4 == |path| {
          assert rest[j + 3] == path[j + 3] && path[j + 3] in path;
          assert w[3] == rest[j + 3] && w[3] != '(';
        } else if j < |path| {
          assert rest[|path|] == '"';
          assert w[|path| - j] == rest[|path|];
        } else {
          assert w[0] == rest[j] && rest[j] != 'u';
        }
      }
    }
    match Find(rest, UrlOpen)
    case Some(m) =>
      assert m >= |path| + 2;
    case None =>
  }

  /** The first `")` after a path free of '"' is the one closing it. */
  lemma CloseEndsPath(path: string, cut: string)
    requires '"' !in path
    requires |cut| >= |path| + 2 && cut[..|path| + 2] == path + UrlClose
    ensures Before(cut, UrlClose) == path
  {
    assert cut[|path|..|path| + 2] == UrlClose;
    forall j | 0 <= j < |path|
      ensures !IsAt(cut, j, UrlClose)
    {
      assert cut[j] == path[j] && path[j] != '"';
      assert cut[j..j + 2][0] == cut[j];
    }
    FindFirst(cut, UrlClose, |path|);
    assert cut[..|path|] == path;
  }

  /** A `style` of the form `prefix url("path") suffix` yields `path`, when
      the prefix holds no `url("` and the path holds neither '"' nor '(',
      as a URL written inside `url("...")` does not. */
  lemma PosterOfStyle(prefix: string, path: string, suffix: string)
    requires forall j :: !IsAt(prefix, j, UrlOpen)
    requires '"' !in path && '(' !in path
    ensures PosterPath(Some(prefix + UrlOpen + path + UrlClose + suffix)) == Some(path)
  {
    var rest := path + UrlClose + suffix;
    assert prefix + UrlOpen + path + UrlClose + suffix == prefix + UrlOpen + rest;
    OpenAfterPrefix(prefix, rest);
    CutKeepsPath(path, suffix);
    CloseEndsPath(path, Before(rest, UrlOpen));
  }
}
