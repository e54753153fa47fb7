/**
 * What one pass of the index-block refresher does to a note, stated over
 * the line machine `Indexer.Run`: text outside blocks is copied, a block
 * keeps its header and template and gets a fresh region, a template fence
 * closed without a query line raises, and refreshing an already refreshed
 * note changes nothing.
 */
module IndexerLaws {
  import opened Wrappers
  import opened Text
  import opened Indexer
  import opened FileSync

  /** The variables right after a closing fence. */
  const AfterClose := Fresh.(phase := Output)

  lemma RegionShape<T>(c: T, blank: T, r: seq<T>, e: T, rest: seq<T>)
    ensures [c] + ([blank] + (r + [blank, e])) + rest == [c] + (([blank] + r + [blank]) + ([e] + rest))
  {
  }

  /** `Run` on a line put in front of `rest`. */
  lemma RunCons(env: Env, m: Machine, x: string, rest: seq<string>)
    ensures Run(env, m, [x] + rest) == match Step(env, m, x)
                                       case None => None
                                       case Some(t) => Prepend(t.out, Run(env, t.next, rest))
  {
    assert ([x] + rest)[0] == x && ([x] + rest)[1..] == rest;
  }

  /** Outside a block every line but the begin marker is copied unchanged. */
  lemma {:induction false} NormalRun(env: Env, m: Machine, a: seq<string>, rest: seq<string>)
    requires m.phase == Normal && BeginMarker !in a
    ensures Run(env, m, a + rest) == Prepend(a, Run(env, m, rest))
    decreases |a|
  {
    if |a| == 0 {
      assert a + rest == rest;
      PrependNil(Run(env, m, rest));
    } else {
      assert a + rest == [a[0]] + (a[1..] + rest);
      RunCons(env, m, a[0], a[1..] + rest);
      NormalRun(env, m, a[1..], rest);
      PrependAssoc([a[0]], a[1..], Run(env, m, rest));
      assert [a[0]] + a[1..] == a;
    }
  }

  /** Between the begin marker and "```jinja2" every line is copied unchanged. */
  lemma {:induction false} HeaderRun(env: Env, m: Machine, a: seq<string>, rest: seq<string>)
    requires m.phase == Indexer && TemplateOpen !in a
    ensures Run(env, m, a + rest) == Prepend(a, Run(env, m, rest))
    decreases |a|
  {
    if |a| == 0 {
      assert a + rest == rest;
      PrependNil(Run(env, m, rest));
    } else {
      assert a + rest == [a[0]] + (a[1..] + rest);
      RunCons(env, m, a[0], a[1..] + rest);
      HeaderRun(env, m, a[1..], rest);
      PrependAssoc([a[0]], a[1..], Run(env, m, rest));
      assert [a[0]] + a[1..] == a;
    }
  }

  /**
   * After the query line every line up to the closing fence is copied and
   * collected into the template.
   */
  lemma {:induction false} TemplateRun(env: Env, q: string, t: seq<string>, a: seq<string>, rest: seq<string>)
    requires TemplateClose !in a
    ensures Run(env, Machine(Jinja2, Some(q), t), a + rest)
         == Prepend(a, Run(env, Machine(Jinja2, Some(q), t + a), rest))
    decreases |a|
  {
    if |a| == 0 {
      assert a + rest == rest && t + a == t;
      PrependNil(Run(env, Machine(Jinja2, Some(q), t), rest));
    } else {
      var m := Machine(Jinja2, Some(q), t);
      assert a + rest == [a[0]] + (a[1..] + rest);
      RunCons(env, m, a[0], a[1..] + rest);
      TemplateRun(env, q, t + [a[0]], a[1..], rest);
      assert t + [a[0]] + a[1..] == t + a;
      PrependAssoc([a[0]], a[1..], Run(env, Machine(Jinja2, Some(q), t + a), rest));
      assert [a[0]] + a[1..] == a;
    }
  }

  /** Inside the stale region nothing is printed until the end marker. */
  lemma {:induction false} RegionSkipped(env: Env, m: Machine, a: seq<string>, rest: seq<string>)
    requires m.phase == Output && EndMarker !in a
    ensures Run(env, m, a + rest) == Run(env, m, rest)
    decreases |a|
  {
    if |a| == 0 {
      assert a + rest == rest;
    } else {
      assert a + rest == [a[0]] + (a[1..] + rest);
      RunCons(env, m, a[0], a[1..] + rest);
      RegionSkipped(env, m, a[1..], rest);
      PrependNil(Run(env, m, rest));
    }
  }

  /** The end marker closes the stale region; copying resumes with fresh variables. */
  lemma RegionEnd(env: Env, rest: seq<string>)
    ensures Run(env, AfterClose, [EndMarker] + rest) == Run(env, Fresh, rest)
  {
    RunCons(env, AfterClose, EndMarker, rest);
    PrependNil(Run(env, Fresh, rest));
  }

  /** A note without a begin marker is written back line for line. */
  lemma PassThrough(env: Env, content: string)
    requires BeginMarker !in Lines(content)
    ensures Refresh(env, content) == Some(if content == "" || content[|content| - 1] == '\n' then content else content + "\n")
  {
    var ls := Lines(content);
    NormalRun(env, Fresh, ls, []);
    assert ls + [] == ls;
    assert Run(env, Fresh, []) == Some([]);
    UnlinesLines(content);
  }

  /** The lines up to and including "```jinja2" are copied. */
  lemma OpenBlock(env: Env, pre: seq<string>, mid: seq<string>, rest: seq<string>)
    requires BeginMarker !in pre && TemplateOpen !in mid
    ensures Run(env, Fresh, pre + [BeginMarker] + mid + [TemplateOpen] + rest)
         == Prepend(pre + [BeginMarker] + mid + [TemplateOpen], Run(env, Machine(Jinja2, None, []), rest))
  {
    var mi := Machine(Indexer, None, []);
    var mj := Machine(Jinja2, None, []);
    assert pre + [BeginMarker] + mid + [TemplateOpen] + rest == pre + ([BeginMarker] + (mid + ([TemplateOpen] + rest)));
    NormalRun(env, Fresh, pre, [BeginMarker] + (mid + ([TemplateOpen] + rest)));
    RunCons(env, Fresh, BeginMarker, mid + ([TemplateOpen] + rest));
    HeaderRun(env, mi, mid, [TemplateOpen] + rest);
    RunCons(env, mi, TemplateOpen, rest);
    var tail := Run(env, mj, rest);
    PrependAssoc(mid, [TemplateOpen], tail);
    PrependAssoc([BeginMarker], mid + [TemplateOpen], tail);
    PrependAssoc(pre, [BeginMarker] + (mid + [TemplateOpen]), tail);
    assert pre + ([BeginMarker] + (mid + [TemplateOpen])) == pre + [BeginMarker] + mid + [TemplateOpen];
  }

  /**
   * From the line after "```jinja2": the query line and the template are
   * copied, the stale region up to the end marker is replaced by the fresh
   * rendering, and copying resumes after the end marker.
   */
  lemma CloseBlock(env: Env, qline: string, body: seq<string>, stale: seq<string>, post: seq<string>)
    requires qline != TemplateClose && TemplateClose !in body && EndMarker !in stale
    ensures Run(env, Machine(Jinja2, None, []), [qline] + body + [TemplateClose] + stale + [EndMarker] + post)
         == match IndexOutput(env, QueryOf(qline), JoinWith(body, "\n"))
            case None => None
            case Some(text) => Prepend([qline] + body + [TemplateClose] + Region(text), Run(env, Fresh, post))
  {
    var q := QueryOf(qline);
    var mb := Machine(Jinja2, Some(q), body);
    var s4 := stale + ([EndMarker] + post);
    var input := [qline] + body + [TemplateClose] + stale + [EndMarker] + post;
    calc {
      Run(env, Machine(Jinja2, None, []), input);
      { assert input == [qline] + (body + ([TemplateClose] + s4)); }
      Run(env, Machine(Jinja2, None, []), [qline] + (body + ([TemplateClose] + s4)));
      { QueryAndTemplate(env, qline, body, [TemplateClose] + s4); }
      Prepend([qline] + body, Run(env, mb, [TemplateClose] + s4));
    }
    CloseFence(env, mb, stale, post);
    var rendered := IndexOutput(env, q, JoinWith(body, "\n"));
    if rendered.Some? {
      var text := rendered.value;
      PrependAssoc([qline] + body, [TemplateClose] + Region(text), Run(env, Fresh, post));
      ConcatAssoc([qline] + body, [TemplateClose], Region(text));
    }
  }

  /** The query line and the template lines are copied and remembered. */
  lemma QueryAndTemplate(env: Env, qline: string, body: seq<string>, rest: seq<string>)
    requires qline != TemplateClose && TemplateClose !in body
    ensures Run(env, Machine(Jinja2, None, []), [qline] + (body + rest))
         == Prepend([qline] + body, Run(env, Machine(Jinja2, Some(QueryOf(qline)), body), rest))
  {
    RunCons(env, Machine(Jinja2, None, []), qline, body + rest);
    TemplateRun(env, QueryOf(qline), [], body, rest);
    assert [] + body == body;
    PrependAssoc([qline], body, Run(env, Machine(Jinja2, Some(QueryOf(qline)), body), rest));
  }

  /**
   * At the closing fence the fresh region is printed, the stale one is
   * skipped up to the end marker, and copying resumes after it.
   */
  lemma CloseFence(env: Env, m: Machine, stale: seq<string>, post: seq<string>)
    requires m.phase == Jinja2 && m.query.Some? && EndMarker !in stale
    ensures Run(env, m, [TemplateClose] + (stale + ([EndMarker] + post)))
         == match IndexOutput(env, m.query.value, JoinWith(m.template, "\n"))
            case None => None
            case Some(text) => Prepend([TemplateClose] + Region(text), Run(env, Fresh, post))
  {
    RunCons(env, m, TemplateClose, stale + ([EndMarker] + post));
    RegionSkipped(env, AfterClose, stale, [EndMarker] + post);
    RegionEnd(env, post);
  }

  /**
   * One block: everything outside the stale region is copied, the stale region
   * is replaced by the rendering of the template over the query's files,
   * and the rest of the note is refreshed in turn.
   */
  lemma RefreshBlock(env: Env, pre: seq<string>, mid: seq<string>, qline: string, body: seq<string>, stale: seq<string>, post: seq<string>)
    requires BeginMarker !in pre && TemplateOpen !in mid
    requires qline != TemplateClose && TemplateClose !in body && EndMarker !in stale
    ensures var head := pre + [BeginMarker] + mid + [TemplateOpen];
            (Run(env, Fresh, head + [qline] + body + [TemplateClose] + stale + [EndMarker] + post)
             == match IndexOutput(env, QueryOf(qline), JoinWith(body, "\n"))
                case None => None
                case Some(text) => Prepend(head + [qline] + body + [TemplateClose] + Region(text), Run(env, Fresh, post)))
  {
    var head := pre + [BeginMarker] + mid + [TemplateOpen];
    var block := [qline] + body + [TemplateClose] + stale + [EndMarker] + post;
    calc {
      Run(env, Fresh, head + [qline] + body + [TemplateClose] + stale + [EndMarker] + post);
      { assert head + [qline] + body + [TemplateClose] + stale + [EndMarker] + post == head + block; }
      Run(env, Fresh, head + block);
      { OpenBlock(env, pre, mid, block); }
      Prepend(head, Run(env, Machine(Jinja2, None, []), block));
    }
    CloseBlock(env, qline, body, stale, post);
    var rendered := IndexOutput(env, QueryOf(qline), JoinWith(body, "\n"));
    if rendered.Some? {
      var region := Region(rendered.value);
      PrependAssoc(head, [qline] + body + [TemplateClose] + region, Run(env, Fresh, post));
      ConcatAssoc(head, [qline] + body + [TemplateClose], region);
      ConcatAssoc(head, [qline] + body, [TemplateClose]);
      ConcatAssoc(head, [qline], body);
    }
  }

  /** A template fence closed right after "```jinja2", with no query line, raises. */
  lemma MissingQuery(env: Env, pre: seq<string>, mid: seq<string>, rest: seq<string>)
    requires BeginMarker !in pre && TemplateOpen !in mid
    ensures Run(env, Fresh, pre + [BeginMarker] + mid + [TemplateOpen] + [TemplateClose] + rest) == None
  {
    assert pre + [BeginMarker] + mid + [TemplateOpen] + [TemplateClose] + rest
        == pre + [BeginMarker] + mid + [TemplateOpen] + ([TemplateClose] + rest);
    OpenBlock(env, pre, mid, [TemplateClose] + rest);
    RunCons(env, Machine(Jinja2, None, []), TemplateClose, rest);
  }

  /** The printed lines are lines: none of them holds a "\n". */
  lemma {:induction false} RunNoNewlines(env: Env, m: Machine, ls: seq<string>)
    requires NoNewlines(ls) && Run(env, m, ls).Some?
    ensures NoNewlines(Run(env, m, ls).value)
    decreases |ls|
  {
    if |ls| > 0 {
      var t := Step(env, m, ls[0]).value;
      assert NoNewlines(ls[1..]) by {
        assert forall k :: 0 <= k < |ls| - 1 ==> ls[1..][k] == ls[k + 1];
      }
      RunNoNewlines(env, t.next, ls[1..]);
      if |t.out| > 1 {
        var text := IndexOutput(env, m.query.value, JoinWith(m.template, "\n")).value;
        assert t.out == [ls[0]] + Region(text);
        RegionNoNewlines(text);
        NoNewlinesAppend([ls[0]], Region(text));
      }
      NoNewlinesAppend(t.out, Run(env, t.next, ls[1..]).value);
    }
  }

  /** The region printed at a closing fence consists of lines. */
  lemma RegionNoNewlines(text: string)
    ensures NoNewlines(Region(text))
  {
    var r := SplitOn(Strip(text), "\n");
    SplitOnNewlinePieces(Strip(text));
    assert '\n' !in EndMarker;
    NoNewlinesAppend(r, ["", EndMarker]);
    NoNewlinesAppend([""], r + ["", EndMarker]);
  }

  lemma NoNewlinesAppend(a: seq<string>, b: seq<string>)
    requires NoNewlines(a) && NoNewlines(b)
    ensures NoNewlines(a + b)
  {
    assert forall k :: 0 <= k < |a + b| ==> (a + b)[k] == if k < |a| then a[k] else b[k - |a|];
  }

  /**
   * The rendering never yields a line equal to the end marker, so a
   * region written by a refresh is read back as one region.
   */
  ghost predicate EndSafe(env: Env)
  {
    forall q, t :: IndexOutput(env, q, t).Some? ==> EndMarker !in SplitOn(Strip(IndexOutput(env, q, t).value), "\n")
  }

  /** The variables that a second pass over the output has at the same point. */
  function Resume(m: Machine): Machine
  {
    if m.phase == Output then m.(phase := Normal) else m
  }

  /**
   * A second pass over what a pass printed prints the same again: the
   * region printed at a closing fence is skipped up to its own end marker.
   */
  lemma {:induction false} RunIdempotent(env: Env, m: Machine, ls: seq<string>)
    requires EndSafe(env) && Run(env, m, ls).Some?
    ensures Run(env, Resume(m), Run(env, m, ls).value) == Run(env, m, ls)
    decreases |ls|
  {
    if |ls| > 0 {
      var x := ls[0];
      var t := Step(env, m, x).value;
      var out' := Run(env, t.next, ls[1..]).value;
      RunIdempotent(env, t.next, ls[1..]);
      if m.phase == Output {
        PrependNil(Run(env, t.next, ls[1..]));
        if x == EndMarker {
          assert t.next == m.(phase := Normal);
        } else {
          assert t.next == m;
        }
      } else if m.phase == Jinja2 && x == TemplateClose {
        var text := IndexOutput(env, m.query.value, JoinWith(m.template, "\n")).value;
        SecondClose(env, m, text, out');
      } else {
        assert t.out == [x] && t.next.phase != Output;
        RunCons(env, m, x, out');
      }
    }
  }

  /** The closing-fence case of `RunIdempotent`. */
  lemma SecondClose(env: Env, m: Machine, text: string, out': seq<string>)
    requires EndSafe(env) && m.phase == Jinja2 && m.query.Some?
    requires IndexOutput(env, m.query.value, JoinWith(m.template, "\n")) == Some(text)
    requires Run(env, Fresh, out') == Some(out')
    ensures Run(env, m, [TemplateClose] + Region(text) + out') == Some([TemplateClose] + Region(text) + out')
  {
    var r := SplitOn(Strip(text), "\n");
    var stale := [""] + r + [""];
    assert EndMarker !in r;
    assert EndMarker !in stale;
    calc {
      Run(env, m, [TemplateClose] + Region(text) + out');
      { RegionShape(TemplateClose, "", r, EndMarker, out'); }
      Run(env, m, [TemplateClose] + (stale + ([EndMarker] + out')));
      { CloseFence(env, m, stale, out'); }
      Prepend([TemplateClose] + Region(text), Some(out'));
    }
  }

  /**
   * Refreshing a refreshed note writes the same text again, provided no
   * rendering yields an end-marker line.
   */
  lemma RefreshIdempotent(env: Env, content: string)
    requires EndSafe(env) && Refresh(env, content).Some?
    ensures Refresh(env, Refresh(env, content).value) == Refresh(env, content)
  {
    var ls := Lines(content);
    var out := Run(env, Fresh, ls).value;
    RunNoNewlines(env, Fresh, ls);
    LinesUnlines(out);
    RunIdempotent(env, Fresh, ls);
  }

  /** No note is listed twice (`rg -l` lists each file once). */
  ghost predicate Distinct(notes: seq<Path>)
  {
    forall i, j :: 0 <= i < j < |notes| ==> notes[i] != notes[j]
  }

  /** A run leaves every file that is not one of its notes as it was. */
  lemma {:induction false} RefreshAllFrame(files: map<Path, string>, notes: seq<Path>, envAt: Path -> Env, q: Path)
    requires q !in notes && q in files
    ensures q in RefreshAll(files, notes, envAt).files
    ensures RefreshAll(files, notes, envAt).files[q] == files[q]
    decreases |notes|
  {
    if |notes| > 0 && notes[0] in files {
      var p := notes[0];
      assert q != p;
      match Refresh(envAt(Parent(p)), files[p])
      case None =>
      case Some(text) =>
        assert q !in notes[1..];
        RefreshAllFrame(files[p := text], notes[1..], envAt, q);
    }
  }

  /**
   * A run that completes over distinct notes has refreshed each of them
   * from its content before the run, and reported exactly the notes whose
   * content changed.
   */
  lemma {:induction false} RefreshAllResult(files: map<Path, string>, notes: seq<Path>, envAt: Path -> Env)
    requires Distinct(notes) && RefreshAll(files, notes, envAt).ok
    ensures var r := RefreshAll(files, notes, envAt);
            forall k :: 0 <= k < |notes| ==>
              notes[k] in files
              && Refresh(envAt(Parent(notes[k])), files[notes[k]]) == Some(r.files[notes[k]])
              && (notes[k] in r.written <==> files[notes[k]] != r.files[notes[k]])
    decreases |notes|
  {
    if |notes| > 0 {
      var p := notes[0];
      var text := Refresh(envAt(Parent(p)), files[p]).value;
      var tail := notes[1..];
      var rest := RefreshAll(files[p := text], tail, envAt);
      var r := RefreshAll(files, notes, envAt);
      assert r == Outcome(rest.files, (if ShouldReplace(files, p, text) then [p] else []) + rest.written, rest.ok);
      assert Distinct(tail) by {
        forall i, j | 0 <= i < j < |tail| ensures tail[i] != tail[j] {
          assert tail[i] == notes[i + 1] && tail[j] == notes[j + 1];
        }
      }
      RefreshAllResult(files[p := text], tail, envAt);
      assert p !in tail by {
        forall i | 0 <= i < |tail| ensures tail[i] != p {
          assert tail[i] == notes[i + 1];
        }
      }
      RefreshAllFrame(files[p := text], tail, envAt, p);
      forall k | 0 <= k < |notes|
        ensures notes[k] in files
        ensures Refresh(envAt(Parent(notes[k])), files[notes[k]]) == Some(r.files[notes[k]])
        ensures notes[k] in r.written <==> files[notes[k]] != r.files[notes[k]]
      {
        if k > 0 {
          assert notes[k] == tail[k - 1] && notes[k] != p;
        }
      }
    }
  }

  /** A note already up to date is left alone, and the run goes on with the next one. */
  lemma QuietStep(files: map<Path, string>, notes: seq<Path>, envAt: Path -> Env)
    requires |notes| > 0 && notes[0] in files
    requires Refresh(envAt(Parent(notes[0])), files[notes[0]]) == Some(files[notes[0]])
    ensures RefreshAll(files, notes, envAt) == RefreshAll(files, notes[1..], envAt)
  {
    var p := notes[0];
    assert files[p := files[p]] == files;
    assert !ShouldReplace(files, p, files[p]);
    assert [] + RefreshAll(files, notes[1..], envAt).written == RefreshAll(files, notes[1..], envAt).written;
  }

  /** A run over notes that are already up to date writes nothing. */
  lemma {:induction false} QuietRun(files: map<Path, string>, notes: seq<Path>, envAt: Path -> Env)
    requires forall p :: p in notes ==> p in files && Refresh(envAt(Parent(p)), files[p]) == Some(files[p])
    ensures RefreshAll(files, notes, envAt) == Outcome(files, [], true)
    decreases |notes|
  {
    if |notes| > 0 {
      assert notes[0] in notes;
      QuietStep(files, notes, envAt);
      assert forall q :: q in notes[1..] ==> q in notes;
      QuietRun(files, notes[1..], envAt);
    }
  }

  /**
   * Running the refresher a second time over the same distinct notes,
   * whose listings are unchanged and whose rendered regions contain no end
   * marker line, rewrites no file.
   */
  lemma SecondRunWritesNothing(files: map<Path, string>, notes: seq<Path>, envAt: Path -> Env)
    requires Distinct(notes) && RefreshAll(files, notes, envAt).ok
    requires forall p :: p in notes ==> EndSafe(envAt(Parent(p)))
    ensures var after := RefreshAll(files, notes, envAt).files;
            RefreshAll(after, notes, envAt) == Outcome(after, [], true)
  {
    var after := RefreshAll(files, notes, envAt).files;
    RefreshAllResult(files, notes, envAt);
    forall p | p in notes
      ensures p in after && Refresh(envAt(Parent(p)), after[p]) == Some(after[p])
    {
      var k :| 0 <= k < |notes| && notes[k] == p;
      RefreshIdempotent(envAt(Parent(p)), files[p]);
    }
    QuietRun(after, notes, envAt);
  }
}
