/**
 * The Calibre catalog exporter: every row of the catalog that `calibredb`
 * writes becomes one Markdown note in the export directory, named after the
 * book's id, authors and title, with a tag line, a "Meta" section of links
 * and an optional "Comments" section; a note is replaced only when its
 * content changed.
 */
module Calibre {
  import opened Wrappers
  import opened Text
  import opened FileSync

  /** The character class of `INVALID_CHARS_RE`: `[ ] ' ? * # ： | ｜ , \ / : "` and space. */
  const Forbidden: set<char> := {'[', ']', '\'', '?', '*', '#', '\U{FF1A}', '|', '\U{FF5C}', ',', '\\', '/', ':', '"', ' '}

  predicate IsForbidden(c: char)
  {
    c in Forbidden
  }

  /** The end of the run of forbidden characters that starts at `i`. */
  function SkipRun(s: string, i: nat): (j: nat)
    requires i <= |s|
    ensures i <= j <= |s|
    ensures forall k :: i <= k < j ==> IsForbidden(s[k])
    ensures j < |s| ==> !IsForbidden(s[j])
    decreases |s| - i
  {
    if i < |s| && IsForbidden(s[i]) then SkipRun(s, i + 1) else i
  }

  /**
   * `INVALID_CHARS_RE.sub(' ', s)`: every maximal run of forbidden
   * characters becomes a single space. The result keeps no forbidden
   * character but lone spaces, and every other character comes from `s`.
   */
  function Collapse(s: string): (r: string)
    ensures |r| == 0 <==> |s| == 0
    ensures |r| > 0 ==> (r[0] == ' ' <==> IsForbidden(s[0]))
    ensures forall k :: 0 <= k < |r| && IsForbidden(r[k]) ==> r[k] == ' '
    ensures forall k :: 0 <= k < |r| - 1 ==> !(r[k] == ' ' && r[k + 1] == ' ')
    ensures forall k :: 0 <= k < |r| ==> r[k] == ' ' || r[k] in s
    decreases |s|
  {
    if |s| == 0 then ""
    else if IsForbidden(s[0]) then " " + Collapse(s[SkipRun(s, 0)..])
    else [s[0]] + Collapse(s[1..])
  }

  /** The characters of `s` that are not forbidden, in order. */
  function Kept(s: string): string
  {
    if |s| == 0 then "" else (if IsForbidden(s[0]) then "" else [s[0]]) + Kept(s[1..])
  }

  lemma {:induction false} KeptAppend(a: string, b: string)
    ensures Kept(a + b) == Kept(a) + Kept(b)
  {
    if |a| > 0 {
      var head := if IsForbidden(a[0]) then "" else [a[0]];
      assert (a + b)[0] == a[0] && (a + b)[1..] == a[1..] + b;
      KeptAppend(a[1..], b);
      assert Kept(a + b) == head + Kept(a[1..] + b);
      assert Kept(a) == head + Kept(a[1..]);
      ConcatAssoc(head, Kept(a[1..]), Kept(b));
    } else {
      assert a + b == b;
    }
  }

  lemma {:induction false} KeptNone(s: string)
    requires forall k :: 0 <= k < |s| ==> IsForbidden(s[k])
    ensures Kept(s) == ""
  {
    if |s| > 0 {
      KeptNone(s[1..]);
    }
  }

  /** Collapsing loses no character outside the forbidden class and reorders nothing. */
  lemma {:induction false} CollapseKeeps(s: string)
    ensures Kept(Collapse(s)) == Kept(s)
    decreases |s|
  {
    if |s| > 0 {
      if IsForbidden(s[0]) {
        var j := SkipRun(s, 0);
        CollapseKeeps(s[j..]);
        KeptAppend(" ", Collapse(s[j..]));
        assert s == s[..j] + s[j..];
        KeptAppend(s[..j], s[j..]);
        KeptNone(s[..j]);
      } else {
        CollapseKeeps(s[1..]);
        KeptAppend([s[0]], Collapse(s[1..]));
      }
    }
  }

  /** A forbidden run that stops inside `u` stops at the same place once more text follows. */
  lemma {:induction false} SkipRunPrefix(u: string, t: string, i: nat)
    requires i <= |u| && SkipRun(u, i) < |u|
    ensures SkipRun(u + t, i) == SkipRun(u, i)
    decreases |u| - i
  {
    if IsForbidden(u[i]) {
      SkipRunPrefix(u, t, i + 1);
    }
  }

  /** A whole run of forbidden characters, up to an allowed character or the end, is skipped at once. */
  lemma {:induction false} SkipWholeRun(w: string, v: string, i: nat)
    requires i <= |w|
    requires forall k :: 0 <= k < |w| ==> IsForbidden(w[k])
    requires v == [] || !IsForbidden(v[0])
    ensures SkipRun(w + v, i) == |w|
    decreases |w| - i
  {
    if i < |w| {
      SkipWholeRun(w, v, i + 1);
    }
  }

  /** Text that ends with an allowed character collapses on its own, whatever follows it. */
  lemma {:induction false} CollapseSplit(u: string, t: string)
    requires u == [] || !IsForbidden(u[|u| - 1])
    ensures Collapse(u + t) == Collapse(u) + Collapse(t)
    decreases |u|
  {
    var s := u + t;
    if |u| == 0 {
      assert s == t;
    } else if !IsForbidden(u[0]) {
      assert s[1..] == u[1..] + t;
      CollapseSplit(u[1..], t);
      ConcatAssoc([u[0]], Collapse(u[1..]), Collapse(t));
    } else {
      var j := SkipRun(u, 0);
      assert !IsForbidden(u[|u| - 1]);
      assert j < |u|;
      SkipRunPrefix(u, t, 0);
      assert s[j..] == u[j..] + t;
      CollapseSplit(u[j..], t);
      ConcatAssoc(" ", Collapse(u[j..]), Collapse(t));
    }
  }

  /**
   * Each maximal run of forbidden characters becomes exactly one space:
   * a run `w` between text `u` that ends with an allowed character and text
   * `v` that starts with one collapses to " " between the collapsed sides.
   */
  lemma CollapseRun(u: string, w: string, v: string)
    requires |w| > 0 && forall k :: 0 <= k < |w| ==> IsForbidden(w[k])
    requires u == [] || !IsForbidden(u[|u| - 1])
    requires v == [] || !IsForbidden(v[0])
    ensures Collapse(u + w + v) == Collapse(u) + " " + Collapse(v)
  {
    var cu, cv := Collapse(u), Collapse(v);
    assert Collapse(u + (w + v)) == cu + (" " + cv) by {
      CollapseSplit(u, w + v);
      CollapseWholeRun(w, v);
    }
    assert u + w + v == u + (w + v);
    ConcatAssoc(cu, " ", cv);
  }

  /** A run of forbidden characters that ends where an allowed character or the text ends becomes one space. */
  lemma CollapseWholeRun(w: string, v: string)
    requires |w| > 0 && forall k :: 0 <= k < |w| ==> IsForbidden(w[k])
    requires v == [] || !IsForbidden(v[0])
    ensures Collapse(w + v) == " " + Collapse(v)
  {
    SkipWholeRun(w, v, 0);
    assert (w + v)[0] == w[0];
    assert (w + v)[|w|..] == v;
  }

  /**
   * Two words free of forbidden characters and joined by a forbidden run
   * come out of `safe_name` separated by one space: "John,Smith" gives
   * "John Smith".
   */
  lemma SafeNameJoins(u: string, w: string, v: string)
    requires |u| > 0 && |v| > 0 && |w| > 0
    requires forall k :: 0 <= k < |u| ==> !IsForbidden(u[k]) && !IsSpace(u[k])
    requires forall k :: 0 <= k < |v| ==> !IsForbidden(v[k]) && !IsSpace(v[k])
    requires forall k :: 0 <= k < |w| ==> IsForbidden(w[k])
    ensures SafeName(u + w + v) == u + " " + v
  {
    CollapseRun(u, w, v);
    CollapseClean(u);
    CollapseClean(v);
    var r := u + " " + v;
    assert r[0] == u[0] && r[|r| - 1] == v[|v| - 1];
    StripTrimmed(r);
  }

  /** `safe_name`: forbidden runs collapsed to one space, then stripped. */
  function SafeName(s: string): string
  {
    Strip(Collapse(s))
  }

  /**
   * A safe name holds no forbidden character but single spaces, never two
   * spaces in a row, no whitespace at either end, and no character that is
   * neither a space nor taken from `s`.
   */
  lemma SafeNameClean(s: string)
    ensures var r := SafeName(s);
            && (forall k :: 0 <= k < |r| && IsForbidden(r[k]) ==> r[k] == ' ')
            && (forall k :: 0 <= k < |r| - 1 ==> !(r[k] == ' ' && r[k + 1] == ' '))
            && (r == [] || (!IsSpace(r[0]) && !IsSpace(r[|r| - 1])))
            && (forall k :: 0 <= k < |r| ==> r[k] == ' ' || r[k] in s)
  {
    var c := Collapse(s);
    var i := SpaceRunEnd(c, 0);
    var j := SpaceRunStart(c, i, |c|);
    assert Strip(c) == c[i..j];
    SliceClean(c, i, j, s);
  }

  /** A slice of collapsed text is collapsed text too. */
  lemma SliceClean(c: string, i: nat, j: nat, s: string)
    requires i <= j <= |c|
    requires forall k :: 0 <= k < |c| && IsForbidden(c[k]) ==> c[k] == ' '
    requires forall k :: 0 <= k < |c| - 1 ==> !(c[k] == ' ' && c[k + 1] == ' ')
    requires forall k :: 0 <= k < |c| ==> c[k] == ' ' || c[k] in s
    ensures var r := c[i..j];
            && (forall k :: 0 <= k < |r| && IsForbidden(r[k]) ==> r[k] == ' ')
            && (forall k :: 0 <= k < |r| - 1 ==> !(r[k] == ' ' && r[k + 1] == ' '))
            && (forall k :: 0 <= k < |r| ==> r[k] == ' ' || r[k] in s)
  {
    var r := c[i..j];
    assert forall k :: 0 <= k < |r| ==> r[k] == c[i + k];
  }

  /** Text that is already clean is left alone by `Collapse`. */
  lemma {:induction false} CollapseClean(t: string)
    requires forall k :: 0 <= k < |t| && IsForbidden(t[k]) ==> t[k] == ' '
    requires forall k :: 0 <= k < |t| - 1 ==> !(t[k] == ' ' && t[k + 1] == ' ')
    ensures Collapse(t) == t
    decreases |t|
  {
    if |t| > 0 {
      var u := t[1..];
      assert forall k :: 0 <= k < |u| ==> u[k] == t[k + 1];
      if IsForbidden(t[0]) {
        assert SkipRun(t, 0) == 1;
      }
      CollapseClean(u);
      assert t == [t[0]] + u;
    }
  }

  /** `safe_name(safe_name(s)) == safe_name(s)`. */
  lemma SafeNameIdempotent(s: string)
    ensures SafeName(SafeName(s)) == SafeName(s)
  {
    var t := SafeName(s);
    SafeNameClean(s);
    CollapseClean(t);
    StripTrimmed(t);
  }

  /** `brief_authors`: the first of several `&`-separated authors, "et al". */
  function BriefAuthors(authors: string): string
  {
    if Contains(authors, "&") then SafeName(Strip(SplitOn(authors, "&")[0])) + " et al"
    else SafeName(authors)
  }

  /** A character that is not a space and not in `s` is not in its safe name. */
  lemma SafeNameWithout(s: string, c: char)
    requires c != ' ' && c !in s
    ensures c !in SafeName(s)
  {
    SafeNameClean(s);
  }

  /** A forbidden character other than space never survives `safe_name`. */
  lemma SafeNameDrops(s: string, c: char)
    requires IsForbidden(c) && c != ' '
    ensures c !in SafeName(s)
  {
    SafeNameClean(s);
  }

  lemma WithoutBoth<T>(x: T, a: seq<T>, b: seq<T>)
    requires x !in a && x !in b
    ensures x !in a + b
  {
  }

  /** " et al" holds only letters and a space. */
  lemma EtAlSafe(c: char)
    requires c != ' ' && (IsForbidden(c) || c == '&')
    ensures c !in " et al"
  {
  }

  /** Nor does it survive `brief_authors`. */
  lemma BriefAuthorsDrops(authors: string, c: char)
    requires IsForbidden(c) && c != ' '
    ensures c !in BriefAuthors(authors)
  {
    if Contains(authors, "&") {
      var first := SafeName(Strip(SplitOn(authors, "&")[0]));
      SafeNameDrops(Strip(SplitOn(authors, "&")[0]), c);
      EtAlSafe(c);
      WithoutBoth(c, first, " et al");
    } else {
      SafeNameDrops(authors, c);
    }
  }

  /** What `s.strip()` keeps comes from `s`. */
  lemma StripWithout(s: string, c: char)
    requires c !in s
    ensures c !in Strip(s)
  {
    var i := SpaceRunEnd(s, 0);
    var j := SpaceRunStart(s, i, |s|);
    assert Strip(s) == s[i..j];
  }

  /**
   * The brief names one author: with an `&` it is the safe name of the
   * stripped text before the first `&` followed by " et al", without one
   * it is the safe name of the whole field.
   */
  lemma BriefAuthorsOne(authors: string)
    ensures var i := IndexOf(authors, "&");
            BriefAuthors(authors)
            == if i < 0 then SafeName(authors) else SafeName(Strip(authors[..i])) + " et al"
  {
    FirstPiece(authors, "&");
  }

  /** The text before the first `&` holds none. */
  lemma NoAmpersandBefore(authors: string)
    ensures var i := IndexOf(authors, "&");
            '&' !in (if i < 0 then authors else authors[..i])
  {
    var i := IndexOf(authors, "&");
    var before := if i < 0 then authors else authors[..i];
    forall k | 0 <= k < |before|
      ensures before[k] != '&'
    {
      if before[k] == '&' {
        assert authors[k..k + 1] == "&";
        assert OccursAt(authors, "&", k);
      }
    }
  }

  /** The brief never holds an `&`. */
  lemma BriefAuthorsNoAmpersand(authors: string)
    ensures '&' !in BriefAuthors(authors)
  {
    var i := IndexOf(authors, "&");
    BriefAuthorsOne(authors);
    var before := if i < 0 then authors else authors[..i];
    NoAmpersandBefore(authors);
    if i < 0 {
      SafeNameWithout(authors, '&');
    } else {
      StripWithout(before, '&');
      SafeNameWithout(Strip(before), '&');
      EtAlSafe('&');
      WithoutBoth('&', SafeName(Strip(before)), " et al");
    }
  }

  /** One row of the catalog CSV, by column name. */
  datatype Row = Row(
    id: string, authors: string, title: string, tags: string, languages: string,
    formats: string, rating: string, publisher: string, pubdate: string,
    timestamp: string, series: string, cover: string, comments: string)

  /** A parsed timestamp: its year and its `strftime('%Y-%m-%d')` text. */
  datatype Date = Date(year: int, day: string)

  /**
   * The library calls the row loop makes: `datetime.fromisoformat` (None
   * when it raises ValueError, which ends the export) and
   * `urllib.parse.quote`.
   */
  datatype Externals = Externals(parseDate: string -> Option<Date>, quote: string -> string)

  /** The note's file name. */
  function NoteName(row: Row): string
  {
    "Calibre " + row.id + " - " + BriefAuthors(row.authors) + " - " + SafeName(row.title) + ".md"
  }

  lemma Without<T>(x: T, a: seq<T>, b: seq<T>, c: seq<T>, d: seq<T>, e: seq<T>, f: seq<T>, g: seq<T>)
    requires x !in a && x !in b && x !in c && x !in d && x !in e && x !in f && x !in g
    ensures x !in a + b + c + d + e + f + g
  {
  }

  /**
   * The note's file name names a file directly inside the export directory
   * whenever the id holds no `/`, since neither the brief authors nor the
   * safe title ever do.
   */
  lemma NoteNameFlat(row: Row)
    requires '/' !in row.id
    ensures '/' !in NoteName(row)
  {
    BriefAuthorsDrops(row.authors, '/');
    SafeNameDrops(row.title, '/');
    assert '/' !in "Calibre " && '/' !in " - " && '/' !in ".md";
    Without('/', "Calibre ", row.id, " - ", BriefAuthors(row.authors), " - ", SafeName(row.title), ".md");
  }

  /** `[prefix + x for x in items]`. */
  function Prefixed(prefix: string, items: seq<string>): (r: seq<string>)
    ensures |r| == |items|
    ensures forall k :: 0 <= k < |r| ==> r[k] == prefix + items[k]
  {
    seq(|items|, k requires 0 <= k < |items| => prefix + items[k])
  }

  /** The language tags: English, then Chinese, each when its code occurs. */
  function LangTags(languages: string): seq<string>
  {
    (if Contains(languages, "eng") then ["#lang/en"] else [])
    + (if Contains(languages, "zho") then ["#lang/zh"] else [])
  }

  /** The closing tag: the rating, or the reading-list link when unrated. */
  function RatingTag(rating: string): string
  {
    if rating != "" then "#rating/" + rating else "[[Books to Read]]"
  }

  /** The tags of a row's note, in the order the row loop appends them. */
  function TagList(row: Row): seq<string>
  {
    Prefixed("#", SplitOn(row.tags, ", ")) + ["#from/calibre"] + LangTags(row.languages)
    + Prefixed("#format/", SplitOn(row.formats, ", ")) + [RatingTag(row.rating)]
  }

  /** The positions of the five parts of `a + [x] + b + c + [y]`. */
  lemma FiveParts<T>(a: seq<T>, x: T, b: seq<T>, c: seq<T>, y: T)
    ensures var s := a + [x] + b + c + [y];
            && |s| == |a| + |b| + |c| + 2
            && (forall k :: 0 <= k < |a| ==> s[k] == a[k])
            && s[|a|] == x
            && s[|a| + 1..|s| - 1 - |c|] == b
            && (forall k :: 0 <= k < |c| ==> s[|s| - 1 - |c| + k] == c[k])
            && s[|s| - 1] == y
  {
    var s := a + [x] + b + c + [y];
    assert s[|a| + 1..|s| - 1 - |c|] == b;
  }

  /**
   * At most the English and then the Chinese tag, each present exactly
   * when its code occurs in the languages field.
   */
  lemma LangTagsFollowCodes(languages: string)
    ensures var langs := LangTags(languages);
            && ("#lang/en" in langs <==> Contains(languages, "eng"))
            && ("#lang/zh" in langs <==> Contains(languages, "zho"))
            && (|langs| == 2 ==> langs == ["#lang/en", "#lang/zh"])
  {
    assert "#lang/en"[6] != "#lang/zh"[6];
  }

  /** Exactly one of the rating tag and the reading-list link closes the tag line. */
  lemma RatingTagOne(rating: string)
    ensures RatingTag(rating) == "[[Books to Read]]" <==> rating == ""
    ensures rating != "" ==> RatingTag(rating) == "#rating/" + rating
  {
    assert "[[Books to Read]]"[0] != ("#rating/" + rating)[0];
  }

  /**
   * The tag list holds the row's tags, the source tag, the language tags,
   * the formats, and last the rating tag, in that order.
   */
  lemma TagListOrder(row: Row)
    ensures var tags := TagList(row);
            var user := SplitOn(row.tags, ", ");
            var formats := SplitOn(row.formats, ", ");
            var n := |user|;
            && |tags| == n + |LangTags(row.languages)| + |formats| + 2
            && (forall k :: 0 <= k < n ==> tags[k] == "#" + user[k])
            && tags[n] == "#from/calibre"
            && tags[n + 1..|tags| - 1 - |formats|] == LangTags(row.languages)
            && (forall k :: 0 <= k < |formats| ==> tags[|tags| - 1 - |formats| + k] == "#format/" + formats[k])
            && tags[|tags| - 1] == RatingTag(row.rating)
  {
    FiveParts(Prefixed("#", SplitOn(row.tags, ", ")), "#from/calibre", LangTags(row.languages),
              Prefixed("#format/", SplitOn(row.formats, ", ")), RatingTag(row.rating));
  }

  /** The strings `f` gives for the elements of `xs`, one after the other. */
  function ConcatMap<T>(f: T -> string, xs: seq<T>): string
  {
    if |xs| == 0 then "" else ConcatMap(f, xs[..|xs| - 1]) + f(xs[|xs| - 1])
  }

  lemma {:induction false} ConcatMapAppend<T>(f: T -> string, a: seq<T>, b: seq<T>)
    ensures ConcatMap(f, a + b) == ConcatMap(f, a) + ConcatMap(f, b)
    decreases |b|
  {
    if |b| == 0 {
      assert a + b == a;
    } else {
      var c := b[..|b| - 1];
      var x := b[|b| - 1];
      var ab := a + b;
      assert ab[..|ab| - 1] == a + c;
      ConcatMapAppend(f, a, c);
      ConcatAssoc(ConcatMap(f, a), ConcatMap(f, c), f(x));
    }
  }

  lemma ConcatMapOne<T>(f: T -> string, x: T)
    ensures ConcatMap(f, [x]) == f(x)
  {
    assert [x][..0] == [];
  }

  /** One author's link: ` [[name]]` with the name stripped and made safe. */
  function AuthorLink(name: string): string
  {
    " [[" + SafeName(Strip(name)) + "]]"
  }

  /** The authors line's links: one per `&`-separated author, in order. */
  function AuthorLinks(names: seq<string>): string
  {
    ConcatMap(AuthorLink, names)
  }

  /** One author gives one link. */
  lemma AuthorLinksOne(name: string)
    ensures AuthorLinks([name]) == AuthorLink(name)
  {
    ConcatMapOne(AuthorLink, name);
  }

  /** The links follow the authors in order: those of a list are those of its two halves, one after the other. */
  lemma AuthorLinksAppend(a: seq<string>, b: seq<string>)
    ensures AuthorLinks(a + b) == AuthorLinks(a) + AuthorLinks(b)
  {
    ConcatMapAppend(AuthorLink, a, b);
  }

  /** The lines the row loop prints into a note, one constructor per kind of line. */
  datatype NoteLine =
    | Title(title: string)
    | Blank
    | TagLine(tags: string)
    | Heading(name: string)
    | AuthorsLine(links: string)
    | PublisherLine(publisher: string)
    | PublishedLine(day: string)
    | UpdatedLine(day: string)
    | SeriesLine(series: string)
    | OpenLine(id: string)
    | DropboxLine(path: string)
    | LocalLine(path: string)
    | CommentsText(comments: string)

  /** The text of a printed line (without its newline). */
  function Render(line: NoteLine): string
  {
    match line
    case Title(title) => "# " + title
    case Blank => ""
    case TagLine(tags) => tags
    case Heading(name) => "## " + name
    case AuthorsLine(links) => "- Authors:" + links
    case PublisherLine(publisher) => "- Publisher: " + publisher
    case PublishedLine(day) => "- Publish Date: [[" + day + "]]"
    case UpdatedLine(day) => "- Last Updated On: [[" + day + "]]"
    case SeriesLine(series) => "- In Series: [[" + SafeName(series) + "]]"
    case OpenLine(id) => "- [Open in Calibre](calibre://show-book/Calibre_Library/" + id + ")"
    case DropboxLine(path) => "- [Open Directory in Dropbox](https://www.dropbox.com/home/" + path + ")"
    case LocalLine(path) => "- [Open Directory Locally](file://" + path + ") (macOS Only)"
    case CommentsText(comments) => comments
  }

  function RenderAll(lines: seq<NoteLine>): seq<string>
  {
    seq(|lines|, k requires 0 <= k < |lines| => Render(lines[k]))
  }

  /** The title, the tag line and the heading of the "Meta" section. */
  function HeadLines(row: Row): seq<NoteLine>
  {
    [Title(row.title), Blank, TagLine(JoinWith(TagList(row), " ")), Blank, Heading("Meta"), Blank]
  }

  /** Lines printed only when `present`. */
  function When(present: bool, lines: seq<NoteLine>): seq<NoteLine>
  {
    if present then lines else []
  }

  /** The optional lines of the "Meta" section, in order. */
  function OptionalMeta(row: Row, pub: Date, upd: Date): seq<NoteLine>
  {
    When(row.publisher != "", [PublisherLine(row.publisher)])
    + When(pub.year > 1000, [PublishedLine(pub.day)])
    + When(upd.year > 1000, [UpdatedLine(upd.day)])
    + When(row.series != "", [SeriesLine(row.series)])
  }

  /**
   * The "Meta" section's lines, given the authors' links and the parsed
   * publication and update dates.
   */
  function MetaLines(row: Row, links: string, pub: Date, upd: Date): seq<NoteLine>
  {
    [AuthorsLine(links)] + OptionalMeta(row, pub, upd) + [OpenLine(row.id)]
  }

  lemma InFour<T>(a: seq<T>, b: seq<T>, c: seq<T>, d: seq<T>, x: T)
    ensures x in a + b + c + d <==> x in a || x in b || x in c || x in d
  {
  }

  lemma Between<T>(a: T, o: seq<T>, z: T, x: T)
    ensures x in [a] + o + [z] <==> x == a || x in o || x == z
  {
  }

  /**
   * The "Meta" section opens with the authors line and closes with the
   * link into the library; the publisher, each date and the series have a
   * line exactly when the field is set (a date: when its year is after 1000).
   */
  lemma MetaSections(row: Row, links: string, pub: Date, upd: Date)
    ensures var m := MetaLines(row, links, pub, upd);
            && m[0] == AuthorsLine(links)
            && m[|m| - 1] == OpenLine(row.id)
            && (PublisherLine(row.publisher) in m <==> row.publisher != "")
            && (PublishedLine(pub.day) in m <==> pub.year > 1000)
            && (UpdatedLine(upd.day) in m <==> upd.year > 1000)
            && (SeriesLine(row.series) in m <==> row.series != "")
  {
    var o1 := When(row.publisher != "", [PublisherLine(row.publisher)]);
    var o2 := When(pub.year > 1000, [PublishedLine(pub.day)]);
    var o3 := When(upd.year > 1000, [UpdatedLine(upd.day)]);
    var o4 := When(row.series != "", [SeriesLine(row.series)]);
    var o := OptionalMeta(row, pub, upd);
    assert o == o1 + o2 + o3 + o4;
    var first := AuthorsLine(links);
    var last := OpenLine(row.id);
    forall x | x in {PublisherLine(row.publisher), PublishedLine(pub.day), UpdatedLine(upd.day), SeriesLine(row.series)}
      ensures x in MetaLines(row, links, pub, upd) <==> x in o1 || x in o2 || x in o3 || x in o4
    {
      Between(first, o, last, x);
      InFour(o1, o2, o3, o4, x);
    }
  }

  /** "Open Directory" links for a cover inside the Dropbox folder. */
  function CoverLines(cover: string, quote: string -> string): Option<seq<NoteLine>>
  {
    var dir := ParentOf(ParsePath(cover));
    var i := IndexOfPart(dir.parts, "Dropbox");
    if i < 0 then None
    else Some([DropboxLine(quote(PathText(PosixPath(false, dir.parts[i + 1..])))), LocalLine(quote(PathText(dir)))])
  }

  function CommentLines(row: Row): seq<NoteLine>
  {
    When(row.comments != "", [Blank, Heading("Comments"), CommentsText(row.comments)])
  }

  /** The "Meta" section, or None when a date does not parse (ValueError). */
  function MetaOf(row: Row, ext: Externals): Option<seq<NoteLine>>
  {
    var pub :- ext.parseDate(row.pubdate);
    var upd :- ext.parseDate(row.timestamp);
    Some(MetaLines(row, AuthorLinks(SplitOn(row.authors, "&")), pub, upd))
  }

  /** The cover links, or None when the cover lies outside a "Dropbox" directory (ValueError). */
  function CoverOf(row: Row, ext: Externals): Option<seq<NoteLine>>
  {
    if row.cover != "" then CoverLines(row.cover, ext.quote) else Some([])
  }

  /** The note's printed lines, or None when the row raises. */
  function NoteLines(row: Row, ext: Externals): Option<seq<NoteLine>>
  {
    var meta :- MetaOf(row, ext);
    var cover :- CoverOf(row, ext);
    Some(HeadLines(row) + meta + cover + CommentLines(row))
  }

  /** The note file's content: each printed line ends with a newline. */
  function NoteText(row: Row, ext: Externals): Option<string>
  {
    match NoteLines(row, ext)
    case None => None
    case Some(lines) => Some(Unlines(RenderAll(lines)))
  }

  /** The positions of the four parts of a note. */
  lemma NoteParts<T>(head: seq<T>, meta: seq<T>, links: seq<T>, tail: seq<T>)
    ensures var s := head + meta + links + tail;
            && s[..|head|] == head
            && s[|head|..|head| + |meta|] == meta
            && s[|head| + |meta|..|s| - |tail|] == links
            && s[|s| - |tail|..] == tail
  {
  }

  /** Some line of `s` satisfies `p`. */
  predicate Any<T>(s: seq<T>, p: T -> bool)
  {
    exists k :: 0 <= k < |s| && p(s[k])
  }

  lemma AnyParts<T>(head: seq<T>, meta: seq<T>, links: seq<T>, tail: seq<T>, p: T -> bool)
    ensures Any(head + meta + links + tail, p) <==> Any(head, p) || Any(meta, p) || Any(links, p) || Any(tail, p)
  {
    var s := head + meta + links + tail;
    if Any(s, p) {
      var k :| 0 <= k < |s| && p(s[k]);
      if k < |head| {
        assert head[k] == s[k];
      } else if k < |head| + |meta| {
        assert meta[k - |head|] == s[k];
      } else if k < |head| + |meta| + |links| {
        assert links[k - |head| - |meta|] == s[k];
      } else {
        assert tail[k - |head| - |meta| - |links|] == s[k];
      }
    }
    if Any(head, p) {
      var k :| 0 <= k < |head| && p(head[k]);
      assert s[k] == head[k];
    }
    if Any(meta, p) {
      var k :| 0 <= k < |meta| && p(meta[k]);
      assert s[|head| + k] == meta[k];
    }
    if Any(links, p) {
      var k :| 0 <= k < |links| && p(links[k]);
      assert s[|head| + |meta| + k] == links[k];
    }
    if Any(tail, p) {
      var k :| 0 <= k < |tail| && p(tail[k]);
      assert s[|head| + |meta| + |links| + k] == tail[k];
    }
  }

  /** A note is written exactly when both dates parse and a cover, if any, lies under "Dropbox". */
  lemma NoteWritten(row: Row, ext: Externals)
    ensures NoteLines(row, ext).Some?
            <==> && ext.parseDate(row.pubdate).Some?
                 && ext.parseDate(row.timestamp).Some?
                 && (row.cover != "" ==> "Dropbox" in ParentOf(ParsePath(row.cover)).parts)
  {
  }

  /** The meta lines of a note whose dates parse. */
  function NoteMeta(row: Row, ext: Externals): seq<NoteLine>
    requires ext.parseDate(row.pubdate).Some? && ext.parseDate(row.timestamp).Some?
  {
    MetaLines(row, AuthorLinks(SplitOn(row.authors, "&")),
              ext.parseDate(row.pubdate).value, ext.parseDate(row.timestamp).value)
  }

  /** The cover links of a note whose cover, if any, lies under "Dropbox". */
  function NoteCover(row: Row, ext: Externals): seq<NoteLine>
    requires row.cover != "" ==> CoverLines(row.cover, ext.quote).Some?
  {
    if row.cover != "" then CoverLines(row.cover, ext.quote).value else []
  }

  lemma NoteSplit(row: Row, ext: Externals)
    requires NoteLines(row, ext).Some?
    ensures ext.parseDate(row.pubdate).Some? && ext.parseDate(row.timestamp).Some?
    ensures row.cover != "" ==> CoverLines(row.cover, ext.quote).Some?
    ensures NoteLines(row, ext).value == HeadLines(row) + NoteMeta(row, ext) + NoteCover(row, ext) + CommentLines(row)
  {
  }

  /** A written note opens with the title, the tag line and the "Meta" section. */
  lemma NoteOpening(row: Row, ext: Externals)
    requires NoteLines(row, ext).Some?
    ensures ext.parseDate(row.pubdate).Some? && ext.parseDate(row.timestamp).Some?
    ensures var ls := NoteLines(row, ext).value;
            var meta := NoteMeta(row, ext);
            && ls[..6] == HeadLines(row)
            && ls[6..6 + |meta|] == meta
  {
    NoteSplit(row, ext);
    NoteParts(HeadLines(row), NoteMeta(row, ext), NoteCover(row, ext), CommentLines(row));
  }

  predicate IsDropbox(l: NoteLine) { l.DropboxLine? }

  predicate IsCommentsHeading(l: NoteLine) { l == Heading("Comments") }

  /** Every line of the "Meta" section is one of its own kinds. */
  lemma MetaKinds(row: Row, links: string, pub: Date, upd: Date, x: NoteLine)
    requires x in MetaLines(row, links, pub, upd)
    ensures x.AuthorsLine? || x.PublisherLine? || x.PublishedLine? || x.UpdatedLine? || x.SeriesLine? || x.OpenLine?
  {
    var o1 := When(row.publisher != "", [PublisherLine(row.publisher)]);
    var o2 := When(pub.year > 1000, [PublishedLine(pub.day)]);
    var o3 := When(upd.year > 1000, [UpdatedLine(upd.day)]);
    var o4 := When(row.series != "", [SeriesLine(row.series)]);
    assert OptionalMeta(row, pub, upd) == o1 + o2 + o3 + o4;
    Between(AuthorsLine(links), OptionalMeta(row, pub, upd), OpenLine(row.id), x);
    InFour(o1, o2, o3, o4, x);
  }

  /** Neither the opening nor the "Meta" section has a Dropbox link or a "Comments" heading. */
  lemma NoLinksOrComments(row: Row, links: string, pub: Date, upd: Date)
    ensures !Any(HeadLines(row), IsDropbox) && !Any(HeadLines(row), IsCommentsHeading)
    ensures var meta := MetaLines(row, links, pub, upd);
            !Any(meta, IsDropbox) && !Any(meta, IsCommentsHeading)
  {
    assert HeadLines(row)[4] == Heading("Meta");
    var meta := MetaLines(row, links, pub, upd);
    forall k | 0 <= k < |meta| ensures !meta[k].DropboxLine? && !meta[k].Heading? {
      assert meta[k] in meta;
      MetaKinds(row, links, pub, upd, meta[k]);
    }
  }

  /** The cover links of a note are Dropbox links, and there are none without a cover. */
  lemma CoverKinds(row: Row, ext: Externals)
    requires row.cover != "" ==> CoverLines(row.cover, ext.quote).Some?
    ensures Any(NoteCover(row, ext), IsDropbox) <==> row.cover != ""
    ensures !Any(NoteCover(row, ext), IsCommentsHeading)
  {
    if row.cover != "" {
      assert IsDropbox(NoteCover(row, ext)[0]);
    }
  }

  /** The comment lines hold the "Comments" heading exactly when the row has comments. */
  lemma CommentKinds(row: Row)
    ensures Any(CommentLines(row), IsCommentsHeading) <==> row.comments != ""
    ensures !Any(CommentLines(row), IsDropbox)
  {
    if row.comments != "" {
      assert IsCommentsHeading(CommentLines(row)[1]);
    }
  }

  /** A written note has the Dropbox links exactly when its row has a cover. */
  lemma NoteCoverLinks(row: Row, ext: Externals)
    requires NoteLines(row, ext).Some?
    ensures Any(NoteLines(row, ext).value, IsDropbox) <==> row.cover != ""
  {
    NoteSplit(row, ext);
    NoLinksOrComments(row, AuthorLinks(SplitOn(row.authors, "&")),
                      ext.parseDate(row.pubdate).value, ext.parseDate(row.timestamp).value);
    CoverKinds(row, ext);
    CommentKinds(row);
    AnyParts(HeadLines(row), NoteMeta(row, ext), NoteCover(row, ext), CommentLines(row), IsDropbox);
  }

  /** A written note has the "Comments" heading exactly when its row has comments. */
  lemma NoteComments(row: Row, ext: Externals)
    requires NoteLines(row, ext).Some?
    ensures Any(NoteLines(row, ext).value, IsCommentsHeading) <==> row.comments != ""
  {
    NoteSplit(row, ext);
    NoLinksOrComments(row, AuthorLinks(SplitOn(row.authors, "&")),
                      ext.parseDate(row.pubdate).value, ext.parseDate(row.timestamp).value);
    CoverKinds(row, ext);
    CommentKinds(row);
    AnyParts(HeadLines(row), NoteMeta(row, ext), NoteCover(row, ext), CommentLines(row), IsCommentsHeading);
  }

  /** The "Comments" section, when there is one, closes the note. */
  lemma NoteCommentsLast(row: Row, ext: Externals)
    requires NoteLines(row, ext).Some? && row.comments != ""
    ensures var ls := NoteLines(row, ext).value;
            ls[|ls| - 3..] == [Blank, Heading("Comments"), CommentsText(row.comments)]
  {
    NoteSplit(row, ext);
    NoteParts(HeadLines(row), NoteMeta(row, ext), NoteCover(row, ext), CommentLines(row));
  }

  /** A POSIX path as `pathlib` holds it: rooted or not, and its components. */
  datatype PosixPath = PosixPath(absolute: bool, parts: seq<string>)

  /** The components `pathlib` keeps: empty and "." components are dropped, the others kept. */
  function PathParts(pieces: seq<string>): (r: seq<string>)
    ensures forall k :: 0 <= k < |r| ==> r[k] != "" && r[k] != "."
    ensures forall p :: p in r <==> p in pieces && p != "" && p != "."
    ensures |r| <= |pieces|
  {
    if |pieces| == 0 then []
    else (if pieces[0] == "" || pieces[0] == "." then [] else [pieces[0]]) + PathParts(pieces[1..])
  }

  /** `Path(s)`. */
  function ParsePath(s: string): PosixPath
  {
    PosixPath(|s| > 0 && s[0] == '/', PathParts(SplitOn(s, "/")))
  }

  /** `Path.parent`: the last component dropped; the root and "." are their own parent. */
  function ParentOf(p: PosixPath): (q: PosixPath)
    ensures q.absolute == p.absolute
    ensures |p.parts| > 0 ==> q.parts + [p.parts[|p.parts| - 1]] == p.parts
    ensures |p.parts| == 0 ==> q == p
  {
    if |p.parts| == 0 then p else p.(parts := p.parts[..|p.parts| - 1])
  }

  /** `str(path)`: "/"-joined components, "." for the empty relative path. */
  function PathText(p: PosixPath): string
  {
    if p.absolute then "/" + JoinWith(p.parts, "/")
    else if |p.parts| == 0 then "."
    else JoinWith(p.parts, "/")
  }

  /** `parts.index(name)`, with -1 for the ValueError. */
  function IndexOfPart(parts: seq<string>, name: string): (i: int)
    ensures i == -1 <==> name !in parts
    ensures i != -1 ==> 0 <= i < |parts| && parts[i] == name && name !in parts[..i]
  {
    if |parts| == 0 then -1
    else if parts[0] == name then 0
    else
      var i := IndexOfPart(parts[1..], name);
      assert i != -1 ==> parts[..i + 1] == [parts[0]] + parts[1..][..i];
      if i == -1 then -1 else i + 1
  }

  /** `tags` as the row loop builds it: a comprehension, then one append at a time. */
  method CollectTags(row: Row) returns (tags: seq<string>)
    ensures tags == TagList(row)
  {
    tags := Prefixed("#", SplitOn(row.tags, ", "));
    tags := tags + ["#from/calibre"];
    ghost var fixed := tags;
    if Contains(row.languages, "eng") {
      tags := tags + ["#lang/en"];
    }
    if Contains(row.languages, "zho") {
      tags := tags + ["#lang/zh"];
    }
    assert tags == fixed + LangTags(row.languages);
    tags := tags + Prefixed("#format/", SplitOn(row.formats, ", "));
    if row.rating != "" {
      tags := tags + ["#rating/" + row.rating];
    } else {
      tags := tags + ["[[Books to Read]]"];
    }
  }

  /** The authors line's links, printed one at a time. */
  method WriteAuthorLinks(names: seq<string>) returns (links: string)
    ensures links == AuthorLinks(names)
  {
    links := "";
    for k := 0 to |names|
      invariant links == AuthorLinks(names[..k])
    {
      assert names[..k + 1][..k] == names[..k];
      links := links + AuthorLink(names[k]);
    }
    assert names[..|names|] == names;
  }

  /** `print` of `lines` under `if present`. */
  method PrintWhen(out: seq<NoteLine>, present: bool, lines: seq<NoteLine>) returns (r: seq<NoteLine>)
    ensures r == out + When(present, lines)
  {
    r := out;
    if present {
      r := r + lines;
    }
  }

  lemma MetaGroups<T>(a: seq<T>, o1: seq<T>, o2: seq<T>, o3: seq<T>, o4: seq<T>, z: seq<T>)
    ensures a + o1 + o2 + o3 + o4 + z == a + (o1 + o2 + o3 + o4) + z
  {
  }

  /** The "Meta" section as the row loop prints it, parsing each date just before its line. */
  method WriteMeta(row: Row, ext: Externals) returns (meta: Option<seq<NoteLine>>)
    ensures meta == MetaOf(row, ext)
  {
    var links := WriteAuthorLinks(SplitOn(row.authors, "&"));
    var out := [AuthorsLine(links)];
    out := PrintWhen(out, row.publisher != "", [PublisherLine(row.publisher)]);
    var pub := ext.parseDate(row.pubdate);
    if pub.None? {
      return None;
    }
    out := PrintWhen(out, pub.value.year > 1000, [PublishedLine(pub.value.day)]);
    var upd := ext.parseDate(row.timestamp);
    if upd.None? {
      return None;
    }
    out := PrintWhen(out, upd.value.year > 1000, [UpdatedLine(upd.value.day)]);
    out := PrintWhen(out, row.series != "", [SeriesLine(row.series)]);
    out := out + [OpenLine(row.id)];
    MetaGroups([AuthorsLine(links)],
               When(row.publisher != "", [PublisherLine(row.publisher)]),
               When(pub.value.year > 1000, [PublishedLine(pub.value.day)]),
               When(upd.value.year > 1000, [UpdatedLine(upd.value.day)]),
               When(row.series != "", [SeriesLine(row.series)]), [OpenLine(row.id)]);
    meta := Some(out);
  }

  /** The body of the row loop: the note printed line by line. */
  method WriteNote(row: Row, ext: Externals) returns (note: Option<string>)
    ensures note == NoteText(row, ext)
  {
    var tags := CollectTags(row);
    var out := [Title(row.title), Blank, TagLine(JoinWith(tags, " ")), Blank, Heading("Meta"), Blank];
    var meta := WriteMeta(row, ext);
    if meta.None? {
      return None;
    }
    out := out + meta.value;
    var cover: seq<NoteLine> := [];
    if row.cover != "" {
      var found := CoverLines(row.cover, ext.quote);
      if found.None? {
        return None;
      }
      cover := found.value;
    }
    out := out + cover;
    out := PrintWhen(out, row.comments != "", [Blank, Heading("Comments"), CommentsText(row.comments)]);
    note := Some(Unlines(RenderAll(out)));
  }

  /**
   * The generated file of each row, in catalog order: the note's path in
   * the export directory `dir` and its content (None: the row raises).
   */
  function Jobs(dir: Path, rows: seq<Row>, ext: Externals): (jobs: seq<Job>)
    ensures |jobs| == |rows|
  {
    seq(|rows|, k requires 0 <= k < |rows| => Job(dir + [NoteName(rows[k])], NoteText(rows[k], ext)))
  }

  /** The export of the catalog rows into the export directory `dir`. */
  function ExportAll(files: map<Path, string>, dir: Path, rows: seq<Row>, ext: Externals): Outcome
  {
    ReplaceEach(files, Jobs(dir, rows, ext))
  }

  /** No two rows share a note name. */
  ghost predicate DistinctNames(rows: seq<Row>)
  {
    forall i, j :: 0 <= i < j < |rows| ==> NoteName(rows[i]) != NoteName(rows[j])
  }

  lemma JobsDistinct(dir: Path, rows: seq<Row>, ext: Externals)
    requires DistinctNames(rows)
    ensures DistinctTargets(Jobs(dir, rows, ext))
  {
    var jobs := Jobs(dir, rows, ext);
    forall i, j | 0 <= i < j < |jobs|
      ensures jobs[i].path != jobs[j].path
    {
      assert jobs[i].path[|dir|] == NoteName(rows[i]);
      assert jobs[j].path[|dir|] == NoteName(rows[j]);
    }
  }

  /** The export completes exactly when every row's note can be written. */
  lemma ExportOk(files: map<Path, string>, dir: Path, rows: seq<Row>, ext: Externals)
    ensures ExportAll(files, dir, rows, ext).ok <==> forall k :: 0 <= k < |rows| ==> NoteLines(rows[k], ext).Some?
  {
    var jobs := Jobs(dir, rows, ext);
    ReplaceEachOk(files, jobs);
    assert forall k :: 0 <= k < |rows| ==> (jobs[k].content.Some? <==> NoteLines(rows[k], ext).Some?);
  }

  /**
   * After a complete export with distinct note names, the note file of row
   * `k` holds its note, and it is reported exactly when it was missing or
   * differed before.
   */
  lemma ExportWrites(files: map<Path, string>, dir: Path, rows: seq<Row>, ext: Externals, k: nat)
    requires DistinctNames(rows) && ExportAll(files, dir, rows, ext).ok && k < |rows|
    ensures var r := ExportAll(files, dir, rows, ext);
            var path := dir + [NoteName(rows[k])];
            && NoteText(rows[k], ext).Some?
            && path in r.files && r.files[path] == NoteText(rows[k], ext).value
            && (path in r.written <==> ShouldReplace(files, path, NoteText(rows[k], ext).value))
  {
    var jobs := Jobs(dir, rows, ext);
    JobsDistinct(dir, rows, ext);
    ReplaceEachResult(files, jobs);
    assert jobs[k] == Job(dir + [NoteName(rows[k])], NoteText(rows[k], ext));
  }

  /** Exporting the catalog again over the result, with distinct note names, rewrites nothing. */
  lemma ExportTwice(files: map<Path, string>, dir: Path, rows: seq<Row>, ext: Externals)
    requires DistinctNames(rows) && ExportAll(files, dir, rows, ext).ok
    ensures var after := ExportAll(files, dir, rows, ext).files;
            ExportAll(after, dir, rows, ext) == Outcome(after, [], true)
  {
    JobsDistinct(dir, rows, ext);
    ReplaceEachTwice(files, Jobs(dir, rows, ext));
  }

  /** The row loop over the catalog, writing into `store`. */
  method ExportCatalog(store: FileStore, dir: Path, rows: seq<Row>, ext: Externals)
    returns (written: seq<Path>, ok: bool)
    modifies store
    ensures Outcome(store.files, written, ok) == ExportAll(old(store.files), dir, rows, ext)
  {
    ghost var jobs := Jobs(dir, rows, ext);
    ghost var whole := ReplaceEach(store.files, jobs);
    written := [];
    ResumeStart(store.files, jobs);
    for k := 0 to |rows|
      invariant Resumes(whole, store.files, jobs[k..], written)
    {
      var name := NoteName(rows[k]);
      var note := WriteNote(rows[k], ext);
      assert jobs[k] == Job(dir + [name], note);
      if note.None? {
        ResumeStop(whole, store.files, jobs, k, written);
        return written, false;
      }
      written := store.Perform(jobs, k, dir + [name], note.value, whole, written);
    }
    ResumeDone(whole, store.files, jobs, written);
    ok := true;
  }
}
