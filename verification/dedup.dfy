/** The importer's duplicate check, as written and as evidently intended.

    As written, an element is skipped when its href equals one of the output
    lines produced so far. Output lines are rendered bookmarks, never bare
    hrefs, so the check almost never fires and a bookmark listed twice in the
    document is printed twice. The intended check skips an element whose
    href was already seen. */
module Dedup {
  import opened Wrappers
  import opened Bookmarks
  import opened Templates
  import opened Importer

  /** The href of an entry that has one. */
  function HrefOf(e: Entry): string
    requires "href" in e.tag.attrs
  {
    e.tag.attrs["href"]
  }

  /** The lines of entries that all render. */
  function Rendered(fmt: OutputFormat, entries: seq<Entry>): (r: seq<string>)
    requires forall i :: 0 <= i < |entries| ==> RenderEntry(fmt, entries[i]).Success?
    ensures |r| == |entries|
  {
    seq(|entries|, i requires 0 <= i < |entries| => RenderEntry(fmt, entries[i]).value)
  }

  /** Every entry has an href and renders, no href is among `lines`, and no
      href equals the rendering of any entry. */
  predicate NoCollision(lines: seq<string>, entries: seq<Entry>, fmt: OutputFormat)
  {
    && (forall i :: 0 <= i < |entries| ==> "href" in entries[i].tag.attrs && RenderEntry(fmt, entries[i]).Success?)
    && (forall i :: 0 <= i < |entries| ==> HrefOf(entries[i]) !in lines)
    && (forall i, j :: 0 <= i < |entries| && 0 <= j < |entries| ==>
          HrefOf(entries[i]) != RenderEntry(fmt, entries[j]).value)
  }

  lemma NoCollisionTail(lines: seq<string>, entries: seq<Entry>, fmt: OutputFormat)
    requires entries != [] && NoCollision(lines, entries, fmt)
    ensures NoCollision(lines + [RenderEntry(fmt, entries[0]).value], entries[1..], fmt)
  {
    var line := RenderEntry(fmt, entries[0]).value;
    var rest := entries[1..];
    forall i | 0 <= i < |rest|
      ensures rest[i] == entries[i + 1]
    {
    }
    forall i | 0 <= i < |rest|
      ensures HrefOf(rest[i]) !in lines + [line]
    {
      assert HrefOf(entries[i + 1]) != RenderEntry(fmt, entries[0]).value;
    }
  }

  lemma EmitKeepStep(lines: seq<string>, entries: seq<Entry>, fmt: OutputFormat)
    requires entries != [] && "href" in entries[0].tag.attrs && HrefOf(entries[0]) !in lines
    requires RenderEntry(fmt, entries[0]).Success?
    ensures Emit(lines, entries, fmt) == Emit(lines + [RenderEntry(fmt, entries[0]).value], entries[1..], fmt)
  {
  }

  lemma RenderedCons(fmt: OutputFormat, entries: seq<Entry>)
    requires entries != [] && forall i :: 0 <= i < |entries| ==> RenderEntry(fmt, entries[i]).Success?
    ensures Rendered(fmt, entries) == [RenderEntry(fmt, entries[0]).value] + Rendered(fmt, entries[1..])
  {
  }

  /** The dedup as written keeps every entry when no href coincides with a
      rendered line: duplicated hrefs are then all printed. */
  lemma {:induction false} EmitKeepsAllWithoutCollision(lines: seq<string>, entries: seq<Entry>, fmt: OutputFormat)
    requires NoCollision(lines, entries, fmt)
    ensures Emit(lines, entries, fmt) == Success(lines + Rendered(fmt, entries))
    decreases |entries|
  {
    if entries == [] {
      assert lines + Rendered(fmt, entries) == lines;
    } else {
      var line := RenderEntry(fmt, entries[0]).value;
      EmitKeepStep(lines, entries, fmt);
      NoCollisionTail(lines, entries, fmt);
      EmitKeepsAllWithoutCollision(lines + [line], entries[1..], fmt);
      RenderedCons(fmt, entries);
      assert lines + [line] + Rendered(fmt, entries[1..]) == lines + ([line] + Rendered(fmt, entries[1..]));
    }
  }

  /** The dedup as intended: an entry is skipped when its href is in `seen`,
      the hrefs already printed. */
  function EmitByHref(seen: set<string>, lines: seq<string>, entries: seq<Entry>, fmt: OutputFormat)
    : (r: Result<seq<string>, KeyError>)
    ensures r.Success? ==> |lines| <= |r.value| <= |lines| + |entries| && r.value[..|lines|] == lines
    decreases |entries|
  {
    if entries == [] then Success(lines)
    else
      match Attr(entries[0].tag, "href")
      case Failure(e) => Failure(e)
      case Success(href) =>
        if href in seen then EmitByHref(seen, lines, entries[1..], fmt)
        else
          match RenderEntry(fmt, entries[0])
          case Failure(e) => Failure(e)
          case Success(line) =>
            var r := EmitByHref(seen + {href}, lines + [line], entries[1..], fmt);
            assert r.Success? ==> r.value[..|lines|] == r.value[..|lines| + 1][..|lines|];
            r
  }

  /** The importer with the intended dedup: the same candidates, each href
      printed once, at its first occurrence. */
  function ImportDedupByHref(doc: seq<Anchor>, types: seq<BookmarkType>, fmt: OutputFormat): Result<seq<string>, KeyError>
  {
    match Candidates(doc, types)
    case Failure(e) => Failure(e)
    case Success(entries) => EmitByHref({}, [], entries, fmt)
  }

  /** `kept` pairs off with the lines after `lines` in `out`, and none of
      their hrefs is in `seen`. */
  predicate KeptByHref(kept: seq<Entry>, seen: set<string>, lines: seq<string>, out: seq<string>, fmt: OutputFormat)
  {
    && |lines| + |kept| == |out|
    && forall k :: 0 <= k < |kept| ==>
         && "href" in kept[k].tag.attrs
         && HrefOf(kept[k]) !in seen
         && RenderEntry(fmt, kept[k]) == Success(out[|lines| + k])
  }

  /** Entries with pairwise different hrefs. */
  predicate DistinctHrefs(kept: seq<Entry>)
  {
    forall k, l :: 0 <= k < l < |kept| ==>
      "href" in kept[k].tag.attrs && "href" in kept[l].tag.attrs && HrefOf(kept[k]) != HrefOf(kept[l])
  }

  /** Every entry's href is in `seen` or is the href of a kept entry. */
  predicate Covered(entries: seq<Entry>, seen: set<string>, kept: seq<Entry>)
  {
    forall i :: 0 <= i < |entries| ==>
      && "href" in entries[i].tag.attrs
      && (|| HrefOf(entries[i]) in seen
          || exists k :: 0 <= k < |kept| && "href" in kept[k].tag.attrs && HrefOf(kept[k]) == HrefOf(entries[i]))
  }

  lemma KeptByHrefCons(e: Entry, tail: seq<Entry>, seen: set<string>, lines: seq<string>, line: string,
                       out: seq<string>, fmt: OutputFormat)
    requires "href" in e.tag.attrs && HrefOf(e) !in seen && RenderEntry(fmt, e) == Success(line)
    requires |lines| < |out| && out[|lines|] == line
    requires KeptByHref(tail, seen + {HrefOf(e)}, lines + [line], out, fmt)
    ensures KeptByHref([e] + tail, seen, lines, out, fmt)
  {
    var kept := [e] + tail;
    assert kept[0] == e && |kept| == |tail| + 1;
    KeptByHrefShift(e, tail, seen + {HrefOf(e)}, seen, |lines|, out, fmt);
  }

  /** The per-element facts about `tail` carry over to `[e] + tail`, one
      position further on, under a smaller set of seen hrefs. */
  lemma KeptByHrefShift(e: Entry, tail: seq<Entry>, big: set<string>, seen: set<string>, n: nat,
                        out: seq<string>, fmt: OutputFormat)
    requires seen <= big && n + 1 + |tail| == |out|
    requires forall j :: 0 <= j < |tail| ==>
               && "href" in tail[j].tag.attrs
               && HrefOf(tail[j]) !in big
               && RenderEntry(fmt, tail[j]) == Success(out[n + 1 + j])
    ensures forall k :: 1 <= k < |[e] + tail| ==>
               && "href" in ([e] + tail)[k].tag.attrs
               && HrefOf(([e] + tail)[k]) !in seen
               && RenderEntry(fmt, ([e] + tail)[k]) == Success(out[n + k])
  {
    forall k | 1 <= k < |[e] + tail|
      ensures ([e] + tail)[k] == tail[k - 1]
    {
    }
  }

  lemma DistinctHrefsCons(e: Entry, tail: seq<Entry>, seen: set<string>, lines: seq<string>, out: seq<string>, fmt: OutputFormat)
    requires "href" in e.tag.attrs
    requires KeptByHref(tail, seen + {HrefOf(e)}, lines, out, fmt) && DistinctHrefs(tail)
    ensures DistinctHrefs([e] + tail)
  {
    var kept := [e] + tail;
    forall k | 1 <= k < |kept|
      ensures kept[k] == tail[k - 1] && HrefOf(kept[k]) != HrefOf(e)
    {
    }
  }

  /** Entry `i` holds the first occurrence of its href, and that href is not
      in `seen`. */
  predicate FirstOccurrence(entries: seq<Entry>, seen: set<string>, i: int)
    requires 0 <= i < |entries|
  {
    && "href" in entries[i].tag.attrs
    && HrefOf(entries[i]) !in seen
    && forall j :: 0 <= j < i ==> !("href" in entries[j].tag.attrs && HrefOf(entries[j]) == HrefOf(entries[i]))
  }

  /** `marks[i]` is the number of lines of `out` in place when the intended
      dedup reaches entry `i`: every entry has an href, a first occurrence
      adds its rendering as the next line, and any other entry adds nothing. */
  predicate ByHrefTrace(seen: set<string>, lines: seq<string>, entries: seq<Entry>, out: seq<string>,
                        fmt: OutputFormat, marks: seq<nat>)
  {
    && |marks| == |entries| + 1
    && marks[0] == |lines|
    && marks[|entries|] == |out|
    && forall i :: 0 <= i < |entries| ==> ByHrefStep(entries, seen, i, out, marks[i], marks[i + 1], fmt)
  }

  /** The intended dedup's step at entry `i`, reached with `m` lines in place. */
  predicate ByHrefStep(entries: seq<Entry>, seen: set<string>, i: int, out: seq<string>, m: nat, m': nat, fmt: OutputFormat)
    requires 0 <= i < |entries|
  {
    && m <= |out|
    && "href" in entries[i].tag.attrs
    && if FirstOccurrence(entries, seen, i) then m' == m + 1 <= |out| && RenderEntry(fmt, entries[i]) == Success(out[m])
       else m' == m
  }

  /** Dropping the first entry moves its href into `seen`. */
  lemma FirstOccurrenceShift(entries: seq<Entry>, seen: set<string>, i: int)
    requires 1 <= i < |entries| && "href" in entries[0].tag.attrs
    ensures FirstOccurrence(entries, seen, i) <==> FirstOccurrence(entries[1..], seen + {HrefOf(entries[0])}, i - 1)
  {
    assert entries[1..][i - 1] == entries[i];
    assert forall j :: 1 <= j < i ==> entries[1..][j - 1] == entries[j];
    if FirstOccurrence(entries[1..], seen + {HrefOf(entries[0])}, i - 1) {
      forall j | 0 <= j < i
        ensures !("href" in entries[j].tag.attrs && HrefOf(entries[j]) == HrefOf(entries[i]))
      {
        if j > 0 {
          assert entries[1..][j - 1] == entries[j];
        }
      }
    }
  }

  /** A trace of the entries after the first extends to all of them. */
  lemma ByHrefTraceCons(seen: set<string>, lines: seq<string>, lines': seq<string>, entries: seq<Entry>,
                        out: seq<string>, fmt: OutputFormat, marks': seq<nat>)
    returns (marks: seq<nat>)
    requires entries != [] && "href" in entries[0].tag.attrs
    requires ByHrefStep(entries, seen, 0, out, |lines|, |lines'|, fmt)
    requires ByHrefTrace(seen + {HrefOf(entries[0])}, lines', entries[1..], out, fmt, marks')
    ensures ByHrefTrace(seen, lines, entries, out, fmt, marks)
  {
    marks := [|lines|] + marks';
    var seen' := seen + {HrefOf(entries[0])};
    forall i | 1 <= i < |entries|
      ensures ByHrefStep(entries, seen, i, out, marks[i], marks[i + 1], fmt)
    {
      FirstOccurrenceShift(entries, seen, i);
      assert entries[1..][i - 1] == entries[i] && marks[i] == marks'[i - 1] && marks[i + 1] == marks'[i];
      assert ByHrefStep(entries[1..], seen', i - 1, out, marks'[i - 1], marks'[i], fmt);
    }
  }

  /** The intended dedup prints the candidates it keeps in order, with
      pairwise different hrefs none of which was already seen, and every
      candidate's href ends up seen or printed. `marks` traces the run: a
      candidate is printed exactly when it is the first occurrence of an
      href not already seen. */
  lemma {:induction false} EmitByHrefSelects(seen: set<string>, lines: seq<string>, entries: seq<Entry>, fmt: OutputFormat)
    returns (kept: seq<Entry>, marks: seq<nat>)
    requires EmitByHref(seen, lines, entries, fmt).Success?
    ensures Subsequence(kept, entries)
    ensures KeptByHref(kept, seen, lines, EmitByHref(seen, lines, entries, fmt).value, fmt)
    ensures DistinctHrefs(kept)
    ensures Covered(entries, seen, kept)
    ensures ByHrefTrace(seen, lines, entries, EmitByHref(seen, lines, entries, fmt).value, fmt, marks)
    decreases |entries|
  {
    var out := EmitByHref(seen, lines, entries, fmt).value;
    if entries == [] {
      kept, marks := [], [|lines|];
    } else {
      var rest := entries[1..];
      var href := HrefOf(entries[0]);
      if href in seen {
        var marks';
        kept, marks' := EmitByHrefSelects(seen, lines, rest, fmt);
        CoveredSkip(entries, seen, kept);
        assert seen + {href} == seen;
        marks := ByHrefTraceCons(seen, lines, lines, entries, out, fmt, marks');
      } else {
        var line := RenderEntry(fmt, entries[0]).value;
        var tail, marks' := EmitByHrefSelects(seen + {href}, lines + [line], rest, fmt);
        kept := [entries[0]] + tail;
        assert kept[1..] == tail;
        assert out[|lines|] == out[..|lines| + 1][|lines|];
        KeptByHrefCons(entries[0], tail, seen, lines, line, out, fmt);
        DistinctHrefsCons(entries[0], tail, seen, lines + [line], out, fmt);
        CoveredKeep(entries, seen, tail);
        marks := ByHrefTraceCons(seen, lines, lines + [line], entries, out, fmt, marks');
      }
    }
  }

  lemma CoveredSkip(entries: seq<Entry>, seen: set<string>, kept: seq<Entry>)
    requires entries != [] && "href" in entries[0].tag.attrs && HrefOf(entries[0]) in seen
    requires Covered(entries[1..], seen, kept)
    ensures Covered(entries, seen, kept)
  {
    forall i | 1 <= i < |entries|
      ensures entries[i] == entries[1..][i - 1]
    {
    }
  }

  lemma CoveredKeep(entries: seq<Entry>, seen: set<string>, tail: seq<Entry>)
    requires entries != [] && "href" in entries[0].tag.attrs
    requires Covered(entries[1..], seen + {HrefOf(entries[0])}, tail)
    ensures Covered(entries, seen, [entries[0]] + tail)
  {
    var kept := [entries[0]] + tail;
    assert kept[0] == entries[0];
    forall i | 1 <= i < |entries|
      ensures entries[i] == entries[1..][i - 1]
    {
    }
    forall k | 0 <= k < |tail|
      ensures kept[k + 1] == tail[k]
    {
    }
  }

  lemma EmitByHrefKeep(seen: set<string>, lines: seq<string>, e: Entry, rest: seq<Entry>, fmt: OutputFormat, line: string)
    requires "href" in e.tag.attrs && HrefOf(e) !in seen
    requires RenderEntry(fmt, e) == Success(line)
    ensures EmitByHref(seen, lines, [e] + rest, fmt) == EmitByHref(seen + {HrefOf(e)}, lines + [line], rest, fmt)
  {
    assert ([e] + rest)[0] == e && ([e] + rest)[1..] == rest;
  }

  lemma EmitByHrefSkip(seen: set<string>, lines: seq<string>, e: Entry, rest: seq<Entry>, fmt: OutputFormat)
    requires "href" in e.tag.attrs && HrefOf(e) in seen
    ensures EmitByHref(seen, lines, [e] + rest, fmt) == EmitByHref(seen, lines, rest, fmt)
  {
    assert ([e] + rest)[0] == e && ([e] + rest)[1..] == rest;
  }

  /** After `A` and `B`: a repeat of `A` is dropped and `C` is printed. */
  lemma RepeatThenNew(seen: set<string>, lines: seq<string>, a2: Entry, c: Entry, fmt: OutputFormat, lc: string)
    requires "href" in a2.tag.attrs && "href" in c.tag.attrs
    requires HrefOf(a2) in seen && HrefOf(c) !in seen
    requires RenderEntry(fmt, c) == Success(lc)
    ensures EmitByHref(seen, lines, [a2, c], fmt) == Success(lines + [lc])
  {
    var none: seq<Entry> := [];
    assert [a2] + [c] == [a2, c] && [c] + none == [c];
    EmitByHrefSkip(seen, lines, a2, [c], fmt);
    EmitByHrefKeep(seen, lines, c, none, fmt, lc);
  }

  /** Two entries with different hrefs, neither seen yet, are both printed. */
  lemma TwoNew(a: Entry, b: Entry, rest: seq<Entry>, fmt: OutputFormat, la: string, lb: string)
    requires "href" in a.tag.attrs && "href" in b.tag.attrs && HrefOf(a) != HrefOf(b)
    requires RenderEntry(fmt, a) == Success(la) && RenderEntry(fmt, b) == Success(lb)
    ensures EmitByHref({}, [], [a] + ([b] + rest), fmt) == EmitByHref({HrefOf(a), HrefOf(b)}, [la, lb], rest, fmt)
  {
    var s1: set<string> := {} + {HrefOf(a)};
    var l1: seq<string> := [] + [la];
    EmitByHrefKeep({}, [], a, [b] + rest, fmt, la);
    EmitByHrefKeep(s1, l1, b, rest, fmt, lb);
    assert s1 + {HrefOf(b)} == {HrefOf(a), HrefOf(b)};
    assert l1 + [lb] == [la, lb];
  }

  /** Hrefs `A, B, A, C`, possibly of different types, come out as the
      lines of the first `A`, of `B` and of `C`, in that order. */
  lemma KeepsFirstOccurrences(a: Entry, b: Entry, a2: Entry, c: Entry, fmt: OutputFormat, la: string, lb: string, lc: string)
    requires "href" in a.tag.attrs && "href" in b.tag.attrs && "href" in a2.tag.attrs && "href" in c.tag.attrs
    requires HrefOf(a2) == HrefOf(a)
    requires HrefOf(a) != HrefOf(b) && HrefOf(a) != HrefOf(c) && HrefOf(b) != HrefOf(c)
    requires RenderEntry(fmt, a) == Success(la) && RenderEntry(fmt, b) == Success(lb) && RenderEntry(fmt, c) == Success(lc)
    ensures EmitByHref({}, [], [a, b, a2, c], fmt) == Success([la, lb, lc])
  {
    var rest := [a2, c];
    assert [a] + ([b] + rest) == [a, b, a2, c];
    TwoNew(a, b, rest, fmt, la, lb);
    RepeatThenNew({HrefOf(a), HrefOf(b)}, [la, lb], a2, c, fmt, lc);
    assert [la, lb] + [lc] == [la, lb, lc];
  }
}
