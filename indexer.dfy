/**
 * The index-block refresher (bin/ob-indexer.py). A note may hold directive
 * blocks of the form
 *
 *     %%+BEGIN: indexer%%
 *     ...header lines...
 *     ```jinja2
 *     <query line: the discovery shell command, fenced by 3 characters on each side>
 *     <template lines>
 *     ```
 *     <rendered region>
 *     %%+END%%
 *
 * Refreshing a note copies it line by line, keeps each block's header and
 * template verbatim and replaces the rendered region with a fresh rendering
 * of the template over one item record per discovered file.
 *
 * The shell, the YAML loader and jinja2 are the collaborators in `Env`;
 * a `None` from any of them is the exception it would raise.
 */
module Indexer {
  import opened Wrappers
  import opened Text
  import opened FileSync

  const BeginMarker := "%%+BEGIN: indexer%%"
  const EndMarker := "%%+END%%"
  const TemplateOpen := "```jinja2"
  const TemplateClose := "```"
  const FrontMatterFence := "---"
  const MetaSeparator := ":: "
  const HeadingPrefix := "# "

  /** An item record: the dictionary that `build_item` returns. */
  type Item = map<string, string>

  /** One file printed by a discovery query: its stem and its content. */
  datatype Source = Source(stem: string, content: string)

  /**
   * The collaborators of `render_index` for the notes of one directory: the
   * discovery query run by the shell (`None` on a nonzero exit or an
   * unreadable file), the YAML loader (`None` when it raises or does not
   * give a mapping), and the jinja2 template rendered with `files`.
   */
  datatype Env = Env(
    discover: string -> Option<seq<Source>>,
    loadYaml: string -> Option<map<string, string>>,
    render: (string, seq<Item>) -> Option<string>)

  // ---------------------------------------------------------------------
  // build_item
  // ---------------------------------------------------------------------

  /** `key` in `key, value = line.split(':: ', 1)`. */
  function KeyOf(line: string): string
    requires Contains(line, MetaSeparator)
  {
    line[..IndexOf(line, MetaSeparator)]
  }

  /** `value` in `key, value = line.split(':: ', 1)`. */
  function ValueOf(line: string): string
    requires Contains(line, MetaSeparator)
  {
    line[IndexOf(line, MetaSeparator) + |MetaSeparator|..]
  }

  /** A metadata line splits at its first ":: " into a key free of ":: " and the rest. */
  lemma MetaLineSplit(line: string)
    requires Contains(line, MetaSeparator)
    ensures KeyOf(line) + MetaSeparator + ValueOf(line) == line
    ensures !Occurs(KeyOf(line), MetaSeparator)
  {
    var i := IndexOf(line, MetaSeparator);
    assert |MetaSeparator| == 3 && i != -1;
    assert line[i..i + 3] == MetaSeparator;
    assert line == line[..i] + line[i..i + 3] + line[i + 3..];
    forall j | OccursAt(line[..i], MetaSeparator, j)
      ensures false
    {
      OccursInPrefix(line, MetaSeparator, i, j);
    }
  }

  /** The number of leading lines of `ls` that contain ":: ". */
  function MetaRun(ls: seq<string>): (n: nat)
    ensures n <= |ls|
    ensures forall k :: 0 <= k < n ==> Contains(ls[k], MetaSeparator)
    ensures n < |ls| ==> !Contains(ls[n], MetaSeparator)
  {
    if |ls| == 0 || !Contains(ls[0], MetaSeparator) then 0 else 1 + MetaRun(ls[1..])
  }

  /**
   * The `for line in ...` loop of `build_item`: every line that contains
   * ":: " sets `item[key] = value`; the first line without it ends the scan.
   */
  function ScanMeta(item: Item, ls: seq<string>): (r: Item)
    ensures item.Keys <= r.Keys
    decreases |ls|
  {
    if |ls| == 0 || !Contains(ls[0], MetaSeparator) then item
    else ScanMeta(item[KeyOf(ls[0]) := ValueOf(ls[0])], ls[1..])
  }

  /** The number of lines before the first "---" (what `takewhile` takes). */
  function FenceIndex(ls: seq<string>): (n: nat)
    ensures n <= |ls|
    ensures forall k :: 0 <= k < n ==> ls[k] != FrontMatterFence
    ensures n < |ls| ==> ls[n] == FrontMatterFence
  {
    if |ls| == 0 || ls[0] == FrontMatterFence then 0 else 1 + FenceIndex(ls[1..])
  }

  /**
   * The lines the metadata loop sees after a front-matter block: the "---"
   * still held in `current_line`, then whatever follows the closing "---".
   */
  function AfterFrontMatter(ls: seq<string>): seq<string>
    requires |ls| > 0
  {
    var n := FenceIndex(ls[1..]);
    [ls[0]] + (if 1 + n < |ls| then ls[n + 2..] else [])
  }

  /** The record as the metadata loop leaves it, or `None` when YAML loading raises. */
  function Fields(env: Env, src: Source): (r: Option<Item>)
    ensures r.Some? ==> "stem" in r.value
  {
    var ls := Lines(src.content);
    var item := map["stem" := src.stem];
    if |ls| == 0 then Some(item)
    else if ls[0] == FrontMatterFence then
      var n := FenceIndex(ls[1..]);
      match env.loadYaml(JoinWith(ls[1..n + 1], "\n"))
      case None => None
      case Some(front) => Some(ScanMeta(item + front, AfterFrontMatter(ls)))
    else if StartsWith(ls[0], HeadingPrefix) then
      Some(ScanMeta(item["title" := ls[0][|HeadingPrefix|..]], ls[1..]))
    else
      Some(ScanMeta(item, ls))
  }

  /** The reference to a note: `[[stem]]`, or `[[stem|title]]` when the title differs. */
  function RefFor(stem: string, title: string): string
  {
    if title == stem then "[[" + stem + "]]" else "[[" + stem + "|" + title + "]]"
  }

  /** Defaults `title` to `stem` and recomputes `ref`. */
  function Settle(item: Item): Item
    requires "stem" in item
  {
    var titled := if "title" in item then item else item["title" := item["stem"]];
    titled["ref" := RefFor(titled["stem"], titled["title"])]
  }

  /** The record `build_item` returns for a discovered file, or `None` when it raises. */
  function ItemOf(env: Env, src: Source): (r: Option<Item>)
    ensures r.Some? ==> "stem" in r.value && "title" in r.value && "ref" in r.value
    ensures r.Some? ==> r.value["ref"] == RefFor(r.value["stem"], r.value["title"])
  {
    match Fields(env, src)
    case None => None
    case Some(fields) => Some(Settle(fields))
  }

  /** `build_item`: derives the record of one discovered file. */
  method BuildItem(env: Env, src: Source) returns (r: Option<Item>)
    ensures r == ItemOf(env, src)
  {
    var item: Item := map["stem" := src.stem];
    var ls := Lines(src.content);
    // The lines the metadata loop runs over: `chain([current_line], lines)`.
    var scan: seq<string> := [];
    if |ls| > 0 {
      var current := ls[0];
      if current == FrontMatterFence {
        var n := FenceIndex(ls[1..]);
        var front := env.loadYaml(JoinWith(ls[1..n + 1], "\n"));
        if front.None? {
          return None;
        }
        item := item + front.value;
        scan := AfterFrontMatter(ls);
      } else if StartsWith(current, HeadingPrefix) {
        item := item["title" := current[|HeadingPrefix|..]];
        scan := ls[1..];
      } else {
        scan := ls;
      }
    }
    assert Fields(env, src) == Some(ScanMeta(item, scan));
    item := ScanLoop(item, scan);
    if "title" !in item {
      item := item["title" := item["stem"]];
    }
    if item["title"] == item["stem"] {
      item := item["ref" := "[[" + item["stem"] + "]]"];
    } else {
      item := item["ref" := "[[" + item["stem"] + "|" + item["title"] + "]]"];
    }
    r := Some(item);
  }

  /** The metadata loop of `build_item`, over the lines it iterates. */
  method ScanLoop(start: Item, scan: seq<string>) returns (item: Item)
    ensures item == ScanMeta(start, scan)
  {
    item := start;
    var k := 0;
    while k < |scan|
      invariant 0 <= k <= |scan|
      invariant ScanMeta(item, scan[k..]) == ScanMeta(start, scan)
    {
      var line := scan[k];
      assert scan[k..][0] == line && scan[k..][1..] == scan[k + 1..];
      if !Contains(line, MetaSeparator) {
        break;
      }
      var i := IndexOf(line, MetaSeparator);
      item := item[line[..i] := line[i + |MetaSeparator|..]];
      k := k + 1;
    }
  }

  /** Scanning stops at the first line without ":: "; nothing after it is read. */
  lemma {:induction false} ScanMetaStops(item: Item, meta: seq<string>, stop: string, rest: seq<string>)
    requires forall k :: 0 <= k < |meta| ==> Contains(meta[k], MetaSeparator)
    requires !Contains(stop, MetaSeparator)
    ensures ScanMeta(item, meta + [stop] + rest) == ScanMeta(item, meta)
    decreases |meta|
  {
    if |meta| == 0 {
      assert (meta + [stop] + rest)[0] == stop;
    } else {
      var line := meta[0];
      assert (meta + [stop] + rest)[0] == line;
      assert (meta + [stop] + rest)[1..] == meta[1..] + [stop] + rest;
      ScanMetaStops(item[KeyOf(line) := ValueOf(line)], meta[1..], stop, rest);
    }
  }

  /** The metadata lines take effect in order: a later line overrides an earlier one. */
  lemma {:induction false} ScanMetaInOrder(item: Item, meta: seq<string>, line: string)
    requires forall k :: 0 <= k < |meta| ==> Contains(meta[k], MetaSeparator)
    requires Contains(line, MetaSeparator)
    ensures ScanMeta(item, meta + [line]) == ScanMeta(item, meta)[KeyOf(line) := ValueOf(line)]
    decreases |meta|
  {
    if |meta| == 0 {
      assert meta + [line] == [line];
    } else {
      var first := meta[0];
      assert (meta + [line])[0] == first;
      assert (meta + [line])[1..] == meta[1..] + [line];
      ScanMetaInOrder(item[KeyOf(first) := ValueOf(first)], meta[1..], line);
    }
  }

  /** A key no scanned line names keeps the value it had before the scan. */
  lemma {:induction false} ScanMetaKeeps(item: Item, ls: seq<string>, key: string)
    requires forall k :: 0 <= k < MetaRun(ls) ==> KeyOf(ls[k]) != key
    ensures key in ScanMeta(item, ls) <==> key in item
    ensures key in item ==> ScanMeta(item, ls)[key] == item[key]
    decreases |ls|
  {
    if |ls| > 0 && Contains(ls[0], MetaSeparator) {
      assert KeyOf(ls[0]) != key;
      forall k | 0 <= k < MetaRun(ls[1..])
        ensures KeyOf(ls[1..][k]) != key
      {
        assert ls[1..][k] == ls[k + 1];
      }
      ScanMetaKeeps(item[KeyOf(ls[0]) := ValueOf(ls[0])], ls[1..], key);
    }
  }

  /** No scanned metadata line sets `key`. */
  predicate Unset(ls: seq<string>, key: string)
  {
    forall k :: 0 <= k < MetaRun(ls) ==> KeyOf(ls[k]) != key
  }

  /** When scanned line `j` is the last one to name `key`, `key` ends up with that line's value. */
  lemma {:induction false} ScanMetaLast(item: Item, ls: seq<string>, j: nat, key: string)
    requires j < MetaRun(ls) && KeyOf(ls[j]) == key
    requires forall k :: j < k < MetaRun(ls) ==> KeyOf(ls[k]) != key
    ensures key in ScanMeta(item, ls) && ScanMeta(item, ls)[key] == ValueOf(ls[j])
    decreases j
  {
    var next := item[KeyOf(ls[0]) := ValueOf(ls[0])];
    assert MetaRun(ls[1..]) == MetaRun(ls) - 1;
    if j == 0 {
      forall k | 0 <= k < MetaRun(ls[1..])
        ensures KeyOf(ls[1..][k]) != key
      {
        assert ls[1..][k] == ls[k + 1];
      }
      ScanMetaKeeps(next, ls[1..], key);
    } else {
      assert ls[1..][j - 1] == ls[j];
      forall k | j - 1 < k < MetaRun(ls[1..])
        ensures KeyOf(ls[1..][k]) != key
      {
        assert ls[1..][k] == ls[k + 1];
      }
      ScanMetaLast(next, ls[1..], j - 1, key);
    }
  }

  /**
   * In a note without front matter, scanning starts after a `# ` heading
   * and at the first line otherwise; a key other than `ref` set by a
   * scanned line holds the value of the last scanned line that sets it.
   */
  lemma ItemScanned(env: Env, src: Source, j: nat)
    requires var ls := Lines(src.content); |ls| > 0 && ls[0] != FrontMatterFence
    requires var ls := Lines(src.content);
             var s := if StartsWith(ls[0], HeadingPrefix) then 1 else 0;
             && s <= j < s + MetaRun(ls[s..]) && KeyOf(ls[j]) != "ref"
             && forall k :: j < k < s + MetaRun(ls[s..]) ==> KeyOf(ls[k]) != KeyOf(ls[j])
    ensures var ls := Lines(src.content);
            && ItemOf(env, src).Some?
            && KeyOf(ls[j]) in ItemOf(env, src).value
            && ItemOf(env, src).value[KeyOf(ls[j])] == ValueOf(ls[j])
  {
    var ls := Lines(src.content);
    var key := KeyOf(ls[j]);
    var fields := Fields(env, src).value;
    assert key in fields && fields[key] == ValueOf(ls[j]) by {
      var base := map["stem" := src.stem];
      if StartsWith(ls[0], HeadingPrefix) {
        var scan := ls[1..];
        assert scan[j - 1] == ls[j];
        forall k | j - 1 < k < MetaRun(scan)
          ensures KeyOf(scan[k]) != key
        {
          assert scan[k] == ls[k + 1];
        }
        ScanMetaLast(base["title" := ls[0][|HeadingPrefix|..]], scan, j - 1, key);
      } else {
        assert ls[0..] == ls;
        ScanMetaLast(base, ls, j, key);
      }
    }
    SettleKeeps(fields, key);
  }

  /** Settling changes no key but `ref`, and leaves an existing `title` alone. */
  lemma SettleKeeps(item: Item, key: string)
    requires "stem" in item && key in item && key != "ref"
    ensures key in Settle(item) && Settle(item)[key] == item[key]
  {
  }

  /** An empty file gives just `stem`, `title = stem` and `ref = [[stem]]`. */
  lemma EmptyFileItem(env: Env, stem: string)
    ensures ItemOf(env, Source(stem, "")) == Some(map["stem" := stem, "title" := stem, "ref" := "[[" + stem + "]]"])
  {
    assert IndexOf("", "\n") == -1;
    assert SplitOn("", "\n") == [""];
    assert Lines("") == [];
  }

  /**
   * A first line `# T` makes `T` the title unless a metadata line sets
   * `title`; the reference then carries `T` as its alias unless it equals the stem.
   */
  lemma HeadingTitle(env: Env, src: Source)
    requires var ls := Lines(src.content); |ls| > 0 && StartsWith(ls[0], HeadingPrefix) && Unset(ls[1..], "title")
    ensures var ls := Lines(src.content); var title := ls[0][|HeadingPrefix|..];
            && ItemOf(env, src).Some?
            && ItemOf(env, src).value["title"] == title
            && ItemOf(env, src).value["ref"] == RefFor(ItemOf(env, src).value["stem"], title)
  {
    var ls := Lines(src.content);
    assert ls[0] != FrontMatterFence by {
      assert ls[0][0] == '#';
    }
    var title := ls[0][|HeadingPrefix|..];
    ScanMetaKeeps(map["stem" := src.stem]["title" := title], ls[1..], "title");
  }

  /**
   * Without front matter, heading or a `title::` line, the title is the stem
   * and the reference is `[[stem]]`; the stem is the file's unless a
   * `stem::` line overrides it.
   */
  lemma PlainTitle(env: Env, src: Source)
    requires var ls := Lines(src.content);
             |ls| == 0 || (ls[0] != FrontMatterFence && !StartsWith(ls[0], HeadingPrefix) && Unset(ls, "title"))
    ensures ItemOf(env, src).Some?
    ensures var item := ItemOf(env, src).value;
            item["title"] == item["stem"] && item["ref"] == "[[" + item["stem"] + "]]"
    ensures Unset(Lines(src.content), "stem") ==> ItemOf(env, src).value["stem"] == src.stem
  {
    var ls := Lines(src.content);
    var base := map["stem" := src.stem];
    if |ls| > 0 {
      ScanMetaKeeps(base, ls, "title");
      if Unset(ls, "stem") {
        ScanMetaKeeps(base, ls, "stem");
      }
    }
  }

  /**
   * After a front-matter block no `key:: value` line is merged: the record
   * is the stem, updated with the loaded front matter, then settled; the
   * lines after the closing "---" play no part.
   */
  lemma FrontMatterCutoff(env: Env, src: Source)
    requires var ls := Lines(src.content); |ls| > 0 && ls[0] == FrontMatterFence
    ensures var ls := Lines(src.content);
            var n := FenceIndex(ls[1..]);
            ItemOf(env, src) == match env.loadYaml(JoinWith(ls[1..n + 1], "\n"))
                                case None => None
                                case Some(front) => Some(Settle(map["stem" := src.stem] + front))
  {
    var ls := Lines(src.content);
    FenceNotMeta();
    assert AfterFrontMatter(ls)[0] == FrontMatterFence;
  }

  /** The "---" line is not a metadata line. */
  lemma FenceNotMeta()
    ensures !Contains(FrontMatterFence, MetaSeparator)
  {
    assert |FrontMatterFence| == 3 && |MetaSeparator| == 3;
    assert IndexFrom(FrontMatterFence, MetaSeparator, 1) == -1;
    assert FrontMatterFence[0..3][0] == '-' != MetaSeparator[0];
  }

  // ---------------------------------------------------------------------
  // render_index
  // ---------------------------------------------------------------------

  /**
   * The records of the discovered files, in discovery order, or `None` when
   * building one of them raises.
   */
  function Items(env: Env, srcs: seq<Source>): Option<seq<Item>>
  {
    MapAll(src => ItemOf(env, src), srcs)
  }

  /** What `render_index(query, template)` returns, or `None` when it raises. */
  function IndexOutput(env: Env, query: string, template: string): Option<string>
  {
    match env.discover(query)
    case None => None
    case Some(srcs) =>
      match Items(env, srcs)
      case None => None
      case Some(files) => env.render(template, files)
  }

  /** `render_index`: runs the query, builds one record per file, renders the template. */
  method RenderIndex(env: Env, query: string, template: string) returns (r: Option<string>)
    ensures r == IndexOutput(env, query, template)
  {
    var found := env.discover(query);
    if found.None? {
      return None;
    }
    var srcs := found.value;
    var files: seq<Item> := [];
    for k := 0 to |srcs|
      invariant Items(env, srcs[..k]) == Some(files)
    {
      var item := BuildItem(env, srcs[k]);
      MapAllStep(src => ItemOf(env, src), srcs, k, files);
      if item.None? {
        MapAllFails(src => ItemOf(env, src), srcs, k);
        return None;
      }
      files := files + [item.value];
    }
    assert srcs[..|srcs|] == srcs;
    r := env.render(template, files);
  }

  // ---------------------------------------------------------------------
  // refresh_file
  // ---------------------------------------------------------------------

  /** The states of `refresh_file`: 'normal', 'indexer', 'jinja2' and 'output'. */
  datatype Phase = Normal | Indexer | Jinja2 | Output

  /** The loop's variables: `state`, `find_line` and `template`. */
  datatype Machine = Machine(phase: Phase, query: Option<string>, template: seq<string>)

  /** The loop's initial variables, also what it resets to after a block. */
  const Fresh := Machine(Normal, None, [])

  /** `line[3:-3]`: the fenced query line with three characters cut from each end. */
  function QueryOf(line: string): (q: string)
    ensures |line| >= 6 ==> line == line[..3] + q + line[|line| - 3..]
    ensures |line| <= 6 ==> q == ""
  {
    if |line| > 6 then line[3..|line| - 3] else ""
  }

  /**
   * What is printed after the closing fence: a blank line, the stripped
   * rendering, a blank line and the end marker.
   */
  function Region(rendered: string): seq<string>
  {
    [""] + (SplitOn(Strip(rendered), "\n") + ["", EndMarker])
  }

  /** The outcome of one loop iteration: the next variables and the lines printed. */
  datatype Transition = Transition(next: Machine, out: seq<string>)

  /** One iteration of the loop of `refresh_file`, or `None` when `render_index` raises. */
  function Step(env: Env, m: Machine, line: string): Option<Transition>
  {
    match m.phase
    case Normal =>
      Some(Transition(if line == BeginMarker then m.(phase := Indexer) else m, [line]))
    case Indexer =>
      Some(Transition(if line == TemplateOpen then m.(phase := Jinja2) else m, [line]))
    case Jinja2 =>
      if line == TemplateClose then
        match m.query
        case None => None
        case Some(q) =>
          match IndexOutput(env, q, JoinWith(m.template, "\n"))
          case None => None
          case Some(text) => Some(Transition(Fresh.(phase := Output), [line] + Region(text)))
      else if m.query.None? then
        Some(Transition(m.(query := Some(QueryOf(line))), [line]))
      else
        Some(Transition(m.(template := m.template + [line]), [line]))
    case Output =>
      Some(Transition(if line == EndMarker then m.(phase := Normal) else m, []))
  }

  /** `xs` in front of the lines of `o`. */
  function Prepend(xs: seq<string>, o: Option<seq<string>>): Option<seq<string>>
  {
    match o
    case None => None
    case Some(ys) => Some(xs + ys)
  }

  /** The lines printed while the loop runs over `ls` from variables `m`. */
  function Run(env: Env, m: Machine, ls: seq<string>): Option<seq<string>>
    decreases |ls|
  {
    if |ls| == 0 then Some([])
    else
      match Step(env, m, ls[0])
      case None => None
      case Some(t) => Prepend(t.out, Run(env, t.next, ls[1..]))
  }

  /** The text `refresh_file(content, wt)` writes to `wt`, or `None` when it raises. */
  function Refresh(env: Env, content: string): Option<string>
  {
    match Run(env, Fresh, Lines(content))
    case None => None
    case Some(out) => Some(Unlines(out))
  }

  lemma PrependAssoc(xs: seq<string>, ys: seq<string>, o: Option<seq<string>>)
    ensures Prepend(xs, Prepend(ys, o)) == Prepend(xs + ys, o)
  {
    if o.Some? {
      assert xs + (ys + o.value) == (xs + ys) + o.value;
    }
  }

  lemma PrependNil(o: Option<seq<string>>)
    ensures Prepend([], o) == o
  {
    if o.Some? {
      assert [] + o.value == o.value;
    }
  }

  /** Printing `text` (which may span lines) appends it and a "\n" to what was written. */
  lemma PrintText(printed: seq<string>, text: string)
    ensures Unlines(printed + SplitOn(text, "\n")) == Unlines(printed) + text + "\n"
  {
    UnlinesAppend(printed, SplitOn(text, "\n"));
    UnlinesSplit(text);
  }

  lemma PrintLine(printed: seq<string>, line: string)
    ensures Unlines(printed + [line]) == Unlines(printed) + line + "\n"
  {
    UnlinesAppend(printed, [line]);
    assert Unlines([line]) == line + "\n" + Unlines([]);
  }

  /** The text printed at a closing fence `line`, given the stripped rendering. */
  function RegionText(line: string, text: string): string
  {
    line + "\n" + ("\n" + (text + "\n" + ("\n" + EndMarker + "\n")))
  }

  /** The lines printed at a closing fence, as text. */
  lemma PrintRegion(printed: seq<string>, line: string, rendered: string)
    ensures Unlines(printed + ([line] + Region(rendered)))
         == Unlines(printed) + RegionText(line, Strip(rendered))
  {
    PrintedRegion(line, Strip(rendered));
    UnlinesAppend(printed, [line] + Region(rendered));
  }

  lemma PrintedRegion(line: string, text: string)
    ensures Unlines([line] + ([""] + (SplitOn(text, "\n") + ["", EndMarker]))) == RegionText(line, text)
  {
    var r := SplitOn(text, "\n");
    calc {
      Unlines([line] + ([""] + (r + ["", EndMarker])));
      { UnlinesCons(line, [""] + (r + ["", EndMarker])); }
      line + "\n" + Unlines([""] + (r + ["", EndMarker]));
      { UnlinesCons("", r + ["", EndMarker]); }
      line + "\n" + ("" + "\n" + Unlines(r + ["", EndMarker]));
      { UnlinesAppend(r, ["", EndMarker]); UnlinesSplit(text); }
      line + "\n" + ("" + "\n" + (text + "\n" + Unlines(["", EndMarker])));
      { UnlinesCons("", [EndMarker]); UnlinesCons(EndMarker, []); }
      line + "\n" + ("" + "\n" + (text + "\n" + ("" + "\n" + (EndMarker + "\n" + Unlines([])))));
      { assert "" + "\n" == "\n"; assert Unlines([]) == ""; }
      RegionText(line, text);
    }
  }

  /** One iteration of `Run`. */
  lemma RunStep(env: Env, m: Machine, ls: seq<string>, k: nat)
    requires k < |ls|
    ensures Run(env, m, ls[k..]) == match Step(env, m, ls[k])
                                    case None => None
                                    case Some(t) => Prepend(t.out, Run(env, t.next, ls[k + 1..]))
  {
    assert ls[k..][0] == ls[k] && ls[k..][1..] == ls[k + 1..];
  }

  /** `refresh_file`: the text written for a note, or `None` when rendering raises. */
  method RefreshFile(env: Env, content: string) returns (written: Option<string>)
    ensures written == Refresh(env, content)
  {
    var findLine: Option<string> := None;
    var template: seq<string> := [];
    var state := Normal;
    var wt := "";
    ghost var printed: seq<string> := [];
    var ls := Lines(content);
    assert ls[0..] == ls;
    PrependNil(Run(env, Fresh, ls));
    for k := 0 to |ls|
      invariant wt == Unlines(printed)
      invariant Run(env, Fresh, ls) == Prepend(printed, Run(env, Machine(state, findLine, template), ls[k..]))
    {
      var line := ls[k];
      ghost var m := Machine(state, findLine, template);
      RunStep(env, m, ls, k);
      if state == Normal {
        PrintLine(printed, line);
        wt := wt + line + "\n";
        if line == BeginMarker {
          state := Indexer;
        }
        PrependAssoc(printed, [line], Run(env, Machine(state, findLine, template), ls[k + 1..]));
        printed := printed + [line];
      } else if state == Indexer {
        PrintLine(printed, line);
        wt := wt + line + "\n";
        if line == TemplateOpen {
          state := Jinja2;
        }
        PrependAssoc(printed, [line], Run(env, Machine(state, findLine, template), ls[k + 1..]));
        printed := printed + [line];
      } else if state == Jinja2 {
        if line == TemplateClose {
          if findLine.None? {
            return None;
          }
          var rendered := RenderIndex(env, findLine.value, JoinWith(template, "\n"));
          if rendered.None? {
            return None;
          }
          ghost var before := printed;
          var text := Strip(rendered.value);
          PrintRegion(printed, line, rendered.value);
          printed := printed + ([line] + Region(rendered.value));
          wt := wt + RegionText(line, text);
          findLine := None;
          template := [];
          state := Output;
          PrependAssoc(before, [line] + Region(rendered.value), Run(env, Machine(state, findLine, template), ls[k + 1..]));
        } else {
          PrintLine(printed, line);
          wt := wt + line + "\n";
          if findLine.None? {
            findLine := Some(QueryOf(line));
          } else {
            template := template + [line];
          }
          PrependAssoc(printed, [line], Run(env, Machine(state, findLine, template), ls[k + 1..]));
          printed := printed + [line];
        }
      } else {
        if line == EndMarker {
          state := Normal;
        }
        PrependNil(Run(env, Machine(state, findLine, template), ls[k + 1..]));
      }
    }
    assert Run(env, Machine(state, findLine, template), ls[|ls|..]) == Some([]);
    assert printed + [] == printed;
    written := Some(wt);
  }

  // ---------------------------------------------------------------------
  // The main loop: every note that holds a begin marker
  // ---------------------------------------------------------------------

  /**
   * The run over `notes` (the paths `rg -l` printed), each refreshed with
   * the collaborators of its own directory and replaced only if its text
   * changed. A note that cannot be read, or whose refresh raises, ends the run.
   */
  function RefreshAll(files: map<Path, string>, notes: seq<Path>, envAt: Path -> Env): (r: Outcome)
    ensures r.files.Keys == files.Keys
    ensures forall p :: p in r.written ==> p in notes
    decreases |notes|
  {
    if |notes| == 0 then Outcome(files, [], true)
    else
      var p := notes[0];
      if p !in files then Outcome(files, [], false)
      else
        match Refresh(envAt(Parent(p)), files[p])
        case None => Outcome(files, [], false)
        case Some(text) =>
          var rest := RefreshAll(files[p := text], notes[1..], envAt);
          Outcome(rest.files, (if ShouldReplace(files, p, text) then [p] else []) + rest.written, rest.ok)
  }

  /**
   * The loop state of `RefreshNotes`: finishing the run over `notes` from
   * `files`, after `written`, gives `whole`.
   */
  ghost predicate RefreshResumes(whole: Outcome, files: map<Path, string>, notes: seq<Path>, written: seq<Path>, envAt: Path -> Env)
  {
    var r := RefreshAll(files, notes, envAt);
    whole == Outcome(r.files, written + r.written, r.ok)
  }

  /** A note that refreshes moves the loop state past it. */
  lemma RefreshNext(whole: Outcome, files: map<Path, string>, notes: seq<Path>, k: nat, written: seq<Path>, envAt: Path -> Env, text: string)
    requires k < |notes| && notes[k] in files
    requires Refresh(envAt(Parent(notes[k])), files[notes[k]]) == Some(text)
    requires RefreshResumes(whole, files, notes[k..], written, envAt)
    ensures RefreshResumes(whole, files[notes[k] := text], notes[k + 1..],
                    written + (if ShouldReplace(files, notes[k], text) then [notes[k]] else []), envAt)
  {
    assert notes[k..][0] == notes[k] && notes[k..][1..] == notes[k + 1..];
    var step := if ShouldReplace(files, notes[k], text) then [notes[k]] else [];
    ConcatAssoc(written, step, RefreshAll(files[notes[k] := text], notes[k + 1..], envAt).written);
  }

  /** A note that is missing or fails to refresh ends the run there. */
  lemma RefreshStop(whole: Outcome, files: map<Path, string>, notes: seq<Path>, k: nat, written: seq<Path>, envAt: Path -> Env)
    requires k < |notes|
    requires notes[k] !in files || Refresh(envAt(Parent(notes[k])), files[notes[k]]).None?
    requires RefreshResumes(whole, files, notes[k..], written, envAt)
    ensures whole == Outcome(files, written, false)
  {
    assert notes[k..][0] == notes[k];
    assert written + [] == written;
  }

  /** With no notes left the run is complete. */
  lemma RefreshDone(whole: Outcome, files: map<Path, string>, notes: seq<Path>, written: seq<Path>, envAt: Path -> Env)
    requires RefreshResumes(whole, files, notes[|notes|..], written, envAt)
    ensures whole == Outcome(files, written, true)
  {
    assert notes[|notes|..] == [];
    assert written + [] == written;
  }

  /** One step of the main loop: the refreshed note replaces its file if different. */
  method ReplaceNote(store: FileStore, notes: seq<Path>, k: nat, text: string, ghost whole: Outcome,
                     written: seq<Path>, ghost envAt: Path -> Env) returns (now: seq<Path>)
    requires k < |notes| && notes[k] in store.files
    requires Refresh(envAt(Parent(notes[k])), store.files[notes[k]]) == Some(text)
    requires RefreshResumes(whole, store.files, notes[k..], written, envAt)
    modifies store
    ensures RefreshResumes(whole, store.files, notes[k + 1..], now, envAt)
    ensures store.files == old(store.files)[notes[k] := text]
  {
    RefreshNext(whole, store.files, notes, k, written, envAt, text);
    var replaced := store.ReplaceIfDifferent(notes[k], text);
    now := written + (if replaced then [notes[k]] else []);
  }

  /**
   * The main loop of the script: every note is refreshed in turn and
   * replaced when its new content differs; the first failure stops the run.
   */
  method RefreshNotes(store: FileStore, notes: seq<Path>, envAt: Path -> Env) returns (written: seq<Path>, ok: bool)
    modifies store
    ensures Outcome(store.files, written, ok) == RefreshAll(old(store.files), notes, envAt)
  {
    ghost var whole := RefreshAll(store.files, notes, envAt);
    written := [];
    assert RefreshResumes(whole, store.files, notes[0..], written, envAt) by {
      assert notes[0..] == notes;
    }
    for k := 0 to |notes|
      invariant RefreshResumes(whole, store.files, notes[k..], written, envAt)
    {
      var p := notes[k];
      if p !in store.files {
        RefreshStop(whole, store.files, notes, k, written, envAt);
        return written, false;
      }
      var text := RefreshFile(envAt(Parent(p)), store.files[p]);
      if text.None? {
        RefreshStop(whole, store.files, notes, k, written, envAt);
        return written, false;
      }
      written := ReplaceNote(store, notes, k, text.value, whole, written, envAt);
    }
    RefreshDone(whole, store.files, notes, written, envAt);
    ok := true;
  }
}
