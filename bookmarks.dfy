/**
 * The bookmark exporter: one Markdown file per bookmark folder, holding a
 * header, a line (or a fenced block) per child and each bookmark's
 * description; the Chrome "other" folder, with the bookmark bar put first,
 * is exported into a scratch tree whose files then replace the ones in the
 * export directory that are missing or differ.
 */
module Bookmarks {
  import opened Wrappers
  import opened Text
  import opened FileSync

  /** A bookmark folder of the browser's JSON file, with its children in order. */
  datatype Folder = Folder(name: string, children: seq<Child>)

  /** A child of a folder: a folder (`type == 'folder'`) or a bookmark with a URL. */
  datatype Child = Subfolder(folder: Folder) | Url(name: string, url: string)

  const BookmarkletPrefix := "javascript:"
  const DataUrlPrefix := "data:"
  const FolderCommentPrefix := "chrome://bookmarks/?id="

  /** The separator between a bookmark's display name and its description. */
  const NameSeparator := " \\\\ "

  /** The file a folder is exported to, inside its own directory. */
  function FileName(name: string): string
  {
    name + " - Bookmarks.md"
  }

  // ---------------------------------------------------------------------
  // Printed lines
  // ---------------------------------------------------------------------

  /** One `print` into a folder's file. */
  datatype Printed =
    | Header(name: string)
    | TagsLine
    | FolderLink(child: string)
    | Bookmarklet(name: string, sha: string, code: string)
    | DataBookmarklet(name: string, sha: string, url: string)
    | Comment(name: string)
    | Blank
    | LinkLine(name: string, host: string, url: string, sha: string)
    | Description(text: string)

  /** The text one `print` writes, its terminating newline included. */
  function Render(p: Printed): string
  {
    match p
    case Header(name) => "# " + name + " - Bookmarks\n\n"
    case TagsLine => "#bookmarks #from/browser\n\n"
    case FolderLink(child) => "- \U{1F4C1} [[" + child + " - Bookmarks]]\n"
    case Bookmarklet(name, sha, code) =>
      "- " + name + " #bookmarklet ^" + sha + "\n    ```javascript\n" + Indent(code, "    ") + "\n    ```\n\n"
    case DataBookmarklet(name, sha, url) =>
      "- " + name + " #bookmarklet ^" + sha + "\n    ```\n" + Indent(url, "    ") + "\n    ```\n\n"
    case Comment(name) => name + "\n"
    case Blank => "\n"
    case LinkLine(name, host, url, sha) => "- " + name + " [" + host + "](" + url + ") ^" + sha + "\n"
    case Description(text) => Indent(text, "    ") + "\n"
  }

  /** The content of a file after the given prints. */
  function Content(ps: seq<Printed>): string
  {
    if |ps| == 0 then "" else Render(ps[0]) + Content(ps[1..])
  }

  lemma {:induction false} ContentAppend(a: seq<Printed>, b: seq<Printed>)
    ensures Content(a + b) == Content(a) + Content(b)
    decreases |a|
  {
    if |a| > 0 {
      assert (a + b)[1..] == a[1..] + b;
      ContentAppend(a[1..], b);
    } else {
      assert a + b == b;
    }
  }

  /** The two header prints every folder file starts with. */
  function HeadLines(name: string): seq<Printed>
  {
    [Header(name), TagsLine]
  }

  // ---------------------------------------------------------------------
  // Bookmarks
  // ---------------------------------------------------------------------

  /** The display name: the text before the first separator. */
  function Display(name: string): string
  {
    SplitOn(name, NameSeparator)[0]
  }

  /** The description: the remaining segments, one per line. */
  function DescriptionOf(name: string): string
  {
    JoinWith(SplitOn(name, NameSeparator)[1..], "\n")
  }

  /**
   * A name without the separator is all display name and no description;
   * a name with one is the display name, the separator and the rest, and
   * the display name holds no separator.
   */
  lemma NameParts(name: string)
    ensures !Contains(name, NameSeparator) ==> Display(name) == name && DescriptionOf(name) == ""
    ensures Contains(name, NameSeparator) ==>
              && name == Display(name) + NameSeparator + JoinWith(SplitOn(name, NameSeparator)[1..], NameSeparator)
              && !Occurs(Display(name), NameSeparator)
  {
    var parts := SplitOn(name, NameSeparator);
    JoinSplit(name, NameSeparator);
    SplitOnPieces(name, NameSeparator);
    FirstPiece(name, NameSeparator);
    if Contains(name, NameSeparator) {
      assert |parts| > 1;
    } else {
      assert parts == [name];
    }
  }

  /** The four kinds of bookmark, by URL prefix. */
  datatype Kind = Javascript | Data | FolderComment | Ordinary

  /** The prefixes are tested in order: `javascript:`, `data:`, the folder comment, anything else. */
  function Classify(url: string): Kind
  {
    if StartsWith(url, BookmarkletPrefix) then Javascript
    else if StartsWith(url, DataUrlPrefix) then Data
    else if StartsWith(url, FolderCommentPrefix) then FolderComment
    else Ordinary
  }

  /**
   * No URL starts with two of the prefixes, so the order of the tests does
   * not matter: a URL is of a kind exactly when it starts with its prefix.
   */
  lemma ClassifyPrefix(url: string)
    ensures Classify(url) == Javascript <==> StartsWith(url, BookmarkletPrefix)
    ensures Classify(url) == Data <==> StartsWith(url, DataUrlPrefix)
    ensures Classify(url) == FolderComment <==> StartsWith(url, FolderCommentPrefix)
    ensures Classify(url) == Ordinary <==>
              !StartsWith(url, BookmarkletPrefix) && !StartsWith(url, DataUrlPrefix) && !StartsWith(url, FolderCommentPrefix)
  {
    if StartsWith(url, BookmarkletPrefix) {
      assert url[0] == 'j';
    }
    if StartsWith(url, DataUrlPrefix) {
      assert url[0] == 'd';
    }
    if StartsWith(url, FolderCommentPrefix) {
      assert url[0] == 'c';
    }
  }

  /** `url.split('://')[1].split('/')[0]`, or None for the IndexError when there is no "://". */
  function Host(url: string): Option<string>
  {
    var parts := SplitOn(url, "://");
    if |parts| < 2 then None else Some(SplitOn(parts[1], "/")[0])
  }

  /**
   * A URL has a host exactly when it holds "://". The host is the start of
   * the text after the first "://", holds no "/", and runs up to the next
   * "/", the next "://" or the end of the URL.
   */
  lemma HostAfterScheme(url: string)
    ensures Host(url).Some? <==> Contains(url, "://")
    ensures Host(url).Some? ==>
              var rest := url[IndexOf(url, "://") + 3..];
              var h := Host(url).value;
              && h <= rest && '/' !in h
              && (|h| == |rest| || rest[|h|] == '/' || OccursAt(rest, "://", |h|))
              && forall k :: 0 <= k < |h| ==> !OccursAt(rest, "://", k)
  {
    var i := IndexOf(url, "://");
    if i >= 0 {
      var rest := url[i + 3..];
      assert SplitOn(url, "://") == [url[..i]] + SplitOn(rest, "://");
      HostEnds(rest);
    }
  }

  /**
   * The host taken from the text after "://" holds no "/" and no "://", and
   * ends at a "/", at a "://" or at the end: whichever comes first.
   */
  lemma HostEnds(rest: string)
    ensures var h := SplitOn(SplitOn(rest, "://")[0], "/")[0];
            && h <= rest && '/' !in h
            && (|h| == |rest| || rest[|h|] == '/' || OccursAt(rest, "://", |h|))
            && forall k :: 0 <= k < |h| ==> !OccursAt(rest, "://", k)
  {
    var piece := SplitOn(rest, "://")[0];
    var h := SplitOn(piece, "/")[0];
    var i := IndexOf(rest, "://");
    FirstPiece(rest, "://");
    FirstPieceEnds(rest, "://");
    FirstPieceEnds(piece, "/");
    FirstPieceFree(piece, '/');
    if |h| < |piece| {
      assert piece[|h|..|h| + 1] == "/";
      assert rest[|h|] == piece[|h|];
    }
    forall k | 0 <= k < |h|
      ensures !OccursAt(rest, "://", k)
    {
      if i >= 0 {
        assert k < i;
      }
    }
  }

  /** The print for the bookmark itself, by kind; None when an ordinary URL has no host. */
  function MainLines(display: string, url: string, sha: string): Option<seq<Printed>>
  {
    match Classify(url)
    case Javascript => Some([Bookmarklet(display, sha, url[|BookmarkletPrefix|..])])
    case Data => Some([DataBookmarklet(display, sha, url)])
    case FolderComment => Some([Comment(display), Blank])
    case Ordinary =>
      var host :- Host(url);
      Some([LinkLine(display, host, url, sha)])
  }

  /** The prints for a description: none when it is empty. */
  function DescriptionLines(description: string, url: string): seq<Printed>
  {
    if description == "" then []
    else (if StartsWith(url, FolderCommentPrefix) then [] else [Blank]) + [Description(description), Blank]
  }

  /** The prints for one child of a folder; `digest` is the short SHA-256 of a URL. */
  function EntryLines(child: Child, digest: string -> string): Option<seq<Printed>>
  {
    match child
    case Subfolder(f) => Some([FolderLink(f.name)])
    case Url(name, url) =>
      var main :- MainLines(Display(name), url, digest(url));
      Some(main + DescriptionLines(DescriptionOf(name), url))
  }

  /**
   * A bookmark prints exactly when it is not an ordinary URL without "://".
   * Its first print is the one for its kind: a bookmarklet holds the URL
   * without the 11-character "javascript:" prefix, a `data:` bookmarklet
   * the whole URL, a folder comment its display name, and a link its host.
   */
  lemma EntryMain(name: string, url: string, digest: string -> string)
    ensures EntryLines(Url(name, url), digest).Some? <==> Classify(url) != Ordinary || Contains(url, "://")
    ensures EntryLines(Url(name, url), digest).Some? ==>
              var first := EntryLines(Url(name, url), digest).value[0];
              var sha := digest(url);
              match Classify(url)
              case Javascript => first == Bookmarklet(Display(name), sha, url[11..])
              case Data => first == DataBookmarklet(Display(name), sha, url)
              case FolderComment => first == Comment(Display(name))
              case Ordinary => first == LinkLine(Display(name), Host(url).value, url, sha)
  {
    HostAfterScheme(url);
  }

  /** Some print of `ps` is a description. */
  predicate HasDescription(ps: seq<Printed>)
  {
    exists k :: 0 <= k < |ps| && ps[k].Description?
  }

  /**
   * A bookmark's description is printed exactly when it is not empty; it
   * then closes the entry, followed by a blank line and, except after a
   * folder comment, preceded by one.
   */
  lemma EntryDescription(name: string, url: string, digest: string -> string)
    requires EntryLines(Url(name, url), digest).Some?
    ensures var ls := EntryLines(Url(name, url), digest).value;
            var d := DescriptionOf(name);
            && (HasDescription(ls) <==> d != "")
            && (d != "" ==> |ls| >= 3 && ls[|ls| - 2..] == [Description(d), Blank])
            && (d != "" && Classify(url) != FolderComment ==> ls[|ls| - 3] == Blank)
  {
    var main := MainLines(Display(name), url, digest(url)).value;
    var tail := DescriptionLines(DescriptionOf(name), url);
    var ls := main + tail;
    ClassifyPrefix(url);
    assert !HasDescription(main);
    if HasDescription(ls) {
      var k :| 0 <= k < |ls| && ls[k].Description?;
      assert k >= |main|;
    }
    if DescriptionOf(name) != "" {
      assert ls[|ls| - 2].Description?;
    }
  }

  /** The prints for a run of children, or None when one of them raises. */
  function BodyOf(children: seq<Child>, digest: string -> string): Option<seq<Printed>>
    decreases |children|
  {
    if |children| == 0 then Some([])
    else
      var init :- BodyOf(children[..|children| - 1], digest);
      var last :- EntryLines(children[|children| - 1], digest);
      Some(init + last)
  }

  /** The folder links among some prints, in order. */
  function FolderLinks(ps: seq<Printed>): seq<string>
    decreases |ps|
  {
    if |ps| == 0 then []
    else FolderLinks(ps[..|ps| - 1]) + (if ps[|ps| - 1].FolderLink? then [ps[|ps| - 1].child] else [])
  }

  lemma {:induction false} FolderLinksAppend(a: seq<Printed>, b: seq<Printed>)
    ensures FolderLinks(a + b) == FolderLinks(a) + FolderLinks(b)
    decreases |b|
  {
    if |b| == 0 {
      assert a + b == a;
    } else {
      var init := b[..|b| - 1];
      assert (a + b)[..|a + b| - 1] == a + init;
      FolderLinksAppend(a, init);
    }
  }

  /** The names of the child folders, in order. */
  function FolderNames(children: seq<Child>): seq<string>
    decreases |children|
  {
    if |children| == 0 then []
    else
      var last := children[|children| - 1];
      FolderNames(children[..|children| - 1]) + (if last.Subfolder? then [last.folder.name] else [])
  }

  /** Prints among which there is no folder link have none to list. */
  lemma {:induction false} NoFolderLinks(ps: seq<Printed>)
    requires forall k :: 0 <= k < |ps| ==> !ps[k].FolderLink?
    ensures FolderLinks(ps) == []
    decreases |ps|
  {
    if |ps| > 0 {
      NoFolderLinks(ps[..|ps| - 1]);
    }
  }

  /** A bookmark prints no folder link. */
  lemma EntryLinks(name: string, url: string, digest: string -> string)
    requires EntryLines(Url(name, url), digest).Some?
    ensures FolderLinks(EntryLines(Url(name, url), digest).value) == []
  {
    var main := MainLines(Display(name), url, digest(url)).value;
    var tail := DescriptionLines(DescriptionOf(name), url);
    var ls := main + tail;
    assert forall k :: 0 <= k < |main| ==> !main[k].FolderLink?;
    assert forall k :: 0 <= k < |tail| ==> !tail[k].FolderLink?;
    forall k | 0 <= k < |ls|
      ensures !ls[k].FolderLink?
    {
      if k < |main| {
        assert ls[k] == main[k];
      } else {
        assert ls[k] == tail[k - |main|];
      }
    }
    NoFolderLinks(ls);
  }

  /** A folder's file links to each of its subfolders, in the order of its children. */
  lemma {:induction false} BodyFolderLinks(children: seq<Child>, digest: string -> string)
    requires BodyOf(children, digest).Some?
    ensures FolderLinks(BodyOf(children, digest).value) == FolderNames(children)
    decreases |children|
  {
    if |children| > 0 {
      var init := children[..|children| - 1];
      var last := children[|children| - 1];
      BodyFolderLinks(init, digest);
      FolderLinksAppend(BodyOf(init, digest).value, EntryLines(last, digest).value);
      match last
      case Subfolder(f) =>
        assert FolderLinks([FolderLink(f.name)]) == FolderLinks([]) + [f.name];
      case Url(name, url) =>
        EntryLinks(name, url, digest);
    }
  }

  // ---------------------------------------------------------------------
  // Folders
  // ---------------------------------------------------------------------

  /**
   * `export_bookmarks_folder(dir, f)` applied to the tree `files`: the
   * subfolders are exported in order, each under its own name, and then
   * the folder's own file is written. None when some bookmark in the tree
   * raises, which ends the script.
   */
  function ExportTree(files: map<Path, string>, dir: Path, f: Folder, digest: string -> string): Option<map<Path, string>>
    decreases f, |f.children| + 1
  {
    var m :- ExportSubfolders(files, dir, f, |f.children|, digest);
    var body :- BodyOf(f.children, digest);
    Some(m[dir + [FileName(f.name)] := Content(HeadLines(f.name) + body)])
  }

  /** The subfolders among the first `k` children of `f`, exported in order. */
  function ExportSubfolders(files: map<Path, string>, dir: Path, f: Folder, k: nat, digest: string -> string)
    : Option<map<Path, string>>
    requires k <= |f.children|
    decreases f, k
  {
    if k == 0 then Some(files)
    else
      var m :- ExportSubfolders(files, dir, f, k - 1, digest);
      match f.children[k - 1]
      case Subfolder(g) => ExportTree(m, dir + [g.name], g, digest)
      case Url(_, _) => Some(m)
  }

  /** The file of every folder in the tree below `dir`. */
  function FolderPaths(dir: Path, f: Folder): set<Path>
    decreases f, |f.children| + 1
  {
    {dir + [FileName(f.name)]} + SubfolderPaths(dir, f, |f.children|)
  }

  /** The files of the subfolders among the first `k` children of `f`. */
  function SubfolderPaths(dir: Path, f: Folder, k: nat): set<Path>
    requires k <= |f.children|
    decreases f, k
  {
    if k == 0 then {}
    else
      SubfolderPaths(dir, f, k - 1)
      + match f.children[k - 1]
        case Subfolder(g) => FolderPaths(dir + [g.name], g)
        case Url(_, _) => {}
  }

  /** An export writes one file per folder of the tree and nothing else. */
  lemma {:induction false} TreeFiles(files: map<Path, string>, dir: Path, f: Folder, digest: string -> string)
    requires ExportTree(files, dir, f, digest).Some?
    ensures ExportTree(files, dir, f, digest).value.Keys == files.Keys + FolderPaths(dir, f)
    decreases f, |f.children| + 1
  {
    SubfolderFiles(files, dir, f, |f.children|, digest);
  }

  lemma {:induction false} SubfolderFiles(files: map<Path, string>, dir: Path, f: Folder, k: nat, digest: string -> string)
    requires k <= |f.children| && ExportSubfolders(files, dir, f, k, digest).Some?
    ensures ExportSubfolders(files, dir, f, k, digest).value.Keys == files.Keys + SubfolderPaths(dir, f, k)
    decreases f, k
  {
    if k > 0 {
      SubfolderFiles(files, dir, f, k - 1, digest);
      var m := ExportSubfolders(files, dir, f, k - 1, digest).value;
      match f.children[k - 1]
      case Subfolder(g) =>
        TreeFiles(m, dir + [g.name], g, digest);
      case Url(_, _) =>
    }
  }

  /**
   * A folder's own file opens with its header and the tags line, then
   * holds what its children print, in order.
   */
  lemma OwnFile(files: map<Path, string>, dir: Path, f: Folder, digest: string -> string)
    requires ExportTree(files, dir, f, digest).Some?
    ensures BodyOf(f.children, digest).Some?
    ensures var m := ExportTree(files, dir, f, digest).value;
            var path := dir + [FileName(f.name)];
            && path in m
            && m[path] == Render(Header(f.name)) + Render(TagsLine) + Content(BodyOf(f.children, digest).value)
  {
    var body := BodyOf(f.children, digest).value;
    ContentAppend(HeadLines(f.name), body);
    HeadContent(f.name);
  }

  lemma HeadContent(name: string)
    ensures Content(HeadLines(name)) == Render(Header(name)) + Render(TagsLine)
  {
    var h := Render(Header(name));
    var t := Render(TagsLine);
    assert HeadLines(name)[1..] == [TagsLine];
    assert Content([TagsLine]) == t + Content([]);
    assert t + "" == t;
  }

  /** One more child: the prints of a prefix extend by the child's. */
  lemma BodyStep(children: seq<Child>, k: nat, body: seq<Printed>, digest: string -> string)
    requires k < |children| && BodyOf(children[..k], digest) == Some(body)
    ensures BodyOf(children[..k + 1], digest)
            == if EntryLines(children[k], digest).None? then None else Some(body + EntryLines(children[k], digest).value)
  {
    assert children[..k + 1][..k] == children[..k];
  }

  /** A failure among the first `k` children fails the whole run over them. */
  lemma {:induction false} BodyFails(children: seq<Child>, k: nat, digest: string -> string)
    requires k <= |children| && BodyOf(children[..k], digest).None?
    ensures BodyOf(children, digest).None?
    decreases |children| - k
  {
    if k < |children| {
      assert children[..k + 1][..k] == children[..k];
      BodyFails(children, k + 1, digest);
    } else {
      assert children[..k] == children;
    }
  }

  lemma {:induction false} SubfoldersFail(files: map<Path, string>, dir: Path, f: Folder, k: nat, digest: string -> string)
    requires k <= |f.children| && ExportSubfolders(files, dir, f, k, digest).None?
    ensures ExportSubfolders(files, dir, f, |f.children|, digest).None?
    decreases |f.children| - k
  {
    if k < |f.children| {
      SubfoldersFail(files, dir, f, k + 1, digest);
    }
  }

  // ---------------------------------------------------------------------
  // The exporter
  // ---------------------------------------------------------------------

  /** The prints for one bookmark, branch by branch. */
  method WriteBookmark(name: string, url: string, digest: string -> string) returns (lines: Option<seq<Printed>>)
    ensures lines == EntryLines(Url(name, url), digest)
  {
    var sha := digest(url);
    var parts := SplitOn(name, NameSeparator);
    var display := parts[0];
    var description := JoinWith(parts[1..], "\n");
    var out: seq<Printed>;
    if StartsWith(url, BookmarkletPrefix) {
      out := [Bookmarklet(display, sha, url[|BookmarkletPrefix|..])];
    } else if StartsWith(url, DataUrlPrefix) {
      out := [DataBookmarklet(display, sha, url)];
    } else if StartsWith(url, FolderCommentPrefix) {
      out := [Comment(display), Blank];
    } else {
      var host := Host(url);
      if host.None? {
        return None;
      }
      out := [LinkLine(display, host.value, url, sha)];
    }
    assert Some(out) == MainLines(display, url, sha);
    ghost var main := out;
    if description != "" {
      if !StartsWith(url, FolderCommentPrefix) {
        out := out + [Blank];
      }
      out := out + [Description(description), Blank];
    }
    assert out == main + DescriptionLines(description, url);
    lines := Some(out);
  }

  /**
   * `export_bookmarks_folder`: the folder's prints are collected while its
   * children are visited, each subfolder being exported first; the file is
   * written when it is closed.
   */
  method ExportFolder(store: FileStore, dir: Path, f: Folder, digest: string -> string) returns (ok: bool)
    modifies store
    ensures ok <==> ExportTree(old(store.files), dir, f, digest).Some?
    ensures ok ==> store.files == ExportTree(old(store.files), dir, f, digest).value
    decreases f
  {
    ghost var initial := store.files;
    var body: seq<Printed> := [];
    for k := 0 to |f.children|
      invariant ExportSubfolders(initial, dir, f, k, digest) == Some(store.files)
      invariant BodyOf(f.children[..k], digest) == Some(body)
    {
      BodyStep(f.children, k, body, digest);
      match f.children[k]
      case Subfolder(g) =>
        var done := ExportFolder(store, dir + [g.name], g, digest);
        if !done {
          SubfoldersFail(initial, dir, f, k + 1, digest);
          return false;
        }
        body := body + [FolderLink(g.name)];
      case Url(name, url) =>
        var lines := WriteBookmark(name, url, digest);
        if lines.None? {
          BodyFails(f.children, k + 1, digest);
          return false;
        }
        body := body + lines.value;
    }
    assert f.children[..|f.children|] == f.children;
    store.Write(dir + [FileName(f.name)], Content(HeadLines(f.name) + body));
    ok := true;
  }

  /** The exported root: the "other" folder renamed "Roots", with the bookmark bar as its first child. */
  function MergeRoots(bar: Folder, other: Folder): Folder
  {
    Folder("Roots", [Subfolder(bar)] + other.children)
  }

  /** The scratch tree the script generates, or None when it raises. */
  function Generated(bar: Folder, other: Folder, digest: string -> string): Option<map<Path, string>>
  {
    ExportTree(map[], [], MergeRoots(bar, other), digest)
  }

  /**
   * The generated tree holds the root file, "Roots - Bookmarks.md", and the
   * bookmark bar's file under the bar's own directory.
   */
  lemma RootFiles(bar: Folder, other: Folder, digest: string -> string)
    requires Generated(bar, other, digest).Some?
    ensures var m := Generated(bar, other, digest).value;
            [FileName("Roots")] in m && [bar.name, FileName(bar.name)] in m
  {
    var root := MergeRoots(bar, other);
    TreeFiles(map[], [], root, digest);
    assert [] + [FileName(root.name)] == [FileName("Roots")];
    assert [bar.name, FileName(bar.name)] in SubfolderPaths([], root, 1) by {
      assert root.children[0] == Subfolder(bar);
      assert [] + [bar.name] + [FileName(bar.name)] == [bar.name, FileName(bar.name)];
    }
    SubfolderPathsGrow([], root, 1, |root.children|);
  }

  /** The root file links to the bookmark bar first, then to the folders of "other" in their order. */
  lemma RootLinks(bar: Folder, other: Folder, digest: string -> string)
    requires Generated(bar, other, digest).Some?
    ensures var root := MergeRoots(bar, other);
            && BodyOf(root.children, digest).Some?
            && FolderLinks(BodyOf(root.children, digest).value) == [bar.name] + FolderNames(other.children)
  {
    var root := MergeRoots(bar, other);
    OwnFile(map[], [], root, digest);
    BodyFolderLinks(root.children, digest);
    FolderNamesAppend([Subfolder(bar)], other.children);
    assert FolderNames([Subfolder(bar)]) == FolderNames([]) + [bar.name];
  }

  lemma {:induction false} SubfolderPathsGrow(dir: Path, f: Folder, j: nat, k: nat)
    requires j <= k <= |f.children|
    ensures SubfolderPaths(dir, f, j) <= SubfolderPaths(dir, f, k)
    decreases k
  {
    if j < k {
      SubfolderPathsGrow(dir, f, j, k - 1);
    }
  }

  lemma {:induction false} FolderNamesAppend(a: seq<Child>, b: seq<Child>)
    ensures FolderNames(a + b) == FolderNames(a) + FolderNames(b)
    decreases |b|
  {
    if |b| == 0 {
      assert a + b == a;
    } else {
      assert (a + b)[..|a + b| - 1] == a + b[..|b| - 1];
      FolderNamesAppend(a, b[..|b| - 1]);
    }
  }

  /**
   * The script: the merged root is exported into an empty scratch tree,
   * and each generated file then replaces its target in the export
   * directory `store` when the target is missing or differs. When the
   * export raises the export directory is left alone.
   */
  method ExportBookmarks(store: FileStore, bar: Folder, other: Folder, digest: string -> string)
    returns (ok: bool, changed: set<Path>)
    modifies store
    ensures ok <==> Generated(bar, other, digest).Some?
    ensures ok ==> store.files == old(store.files) + Generated(bar, other, digest).value
    ensures ok ==> changed == Changed(old(store.files), Generated(bar, other, digest).value)
    ensures !ok ==> store.files == old(store.files)
  {
    var root := MergeRoots(bar, other);
    var scratch := new FileStore(map[]);
    ok := ExportFolder(scratch, [], root, digest);
    if !ok {
      return false, {};
    }
    changed := store.SyncFrom(scratch.files);
  }

  /** Running the script again with the same bookmarks replaces nothing. */
  lemma ExportSettles(files: map<Path, string>, bar: Folder, other: Folder, digest: string -> string)
    requires Generated(bar, other, digest).Some?
    ensures var generated := Generated(bar, other, digest).value;
            Changed(files + generated, generated) == {}
  {
    SyncSettles(files, Generated(bar, other, digest).value);
  }
}
