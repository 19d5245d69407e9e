/** Reading the log backwards: the lines of a file, newest first, and pages that follow a cursor
    while the log keeps growing. */
module CallLogReading {
  import opened Options
  import opened Encoding
  import opened CallLogModel
  import opened CallLogChain

  // ----- lines, newest first

  const REVERSE_CHUNK: nat := 65536

  /** The non-empty parts, last first. */
  function NewestFirst(parts: seq<Bytes>): seq<Bytes> {
    if parts == [] then []
    else NewestFirst(parts[1..]) + (if parts[0] != [] then [parts[0]] else [])
  }

  lemma {:induction false} NewestFirstConcat(p: seq<Bytes>, q: seq<Bytes>)
    ensures NewestFirst(p + q) == NewestFirst(q) + NewestFirst(p)
  {
    if p == [] {
      assert p + q == q;
    } else {
      NewestFirstConcat(p[1..], q);
      assert (p + q)[1..] == p[1..] + q;
    }
  }

  /** `reversed(parts[1:])`, blank lines left out. */
  method YieldParts(parts: seq<Bytes>) returns (lines: seq<Bytes>)
    requires parts != []
    ensures lines == NewestFirst(parts[1..])
  {
    lines := [];
    var i := |parts|;
    assert parts[|parts|..] == [];
    while i > 1
      invariant 1 <= i <= |parts|
      invariant lines == NewestFirst(parts[i..])
    {
      i := i - 1;
      assert parts[i..][1..] == parts[i + 1..];
      if parts[i] != [] {
        lines := lines + [parts[i]];
      }
    }
  }

  /** What one block adds: its complete lines, newest first, before everything in front of it. */
  lemma BlockStep(data: Bytes, pos: nat, before: nat, carry: Bytes)
    requires pos <= before <= |data|
    ensures var parts := Split(data[pos..before] + carry, NEWLINE);
      && parts != [] && Free(parts[0], NEWLINE)
      && NewestFirst(Split(data[..before] + carry, NEWLINE)) == NewestFirst(parts[1..]) + NewestFirst(Split(data[..pos] + parts[0], NEWLINE))
  {
    hide Split; hide NewestFirst;
    var parts := Split(data[pos..before] + carry, NEWLINE);
    assert data[..before] + carry == data[..pos] + (data[pos..before] + carry);
    SplitConcat(data[..pos], data[pos..before] + carry, NEWLINE);
    SplitInverse(data[pos..before] + carry, NEWLINE);
    NewestFirstConcat(Split(data[..pos] + parts[0], NEWLINE), parts[1..]);
  }

  lemma LastLine(carry: Bytes)
    requires Free(carry, NEWLINE)
    ensures NewestFirst(Split(carry, NEWLINE)) == if carry == [] then [] else [carry]
  {
    SplitLast(carry, NEWLINE);
  }

  /** `reverse_lines`: block by block from the end, for every content and every block size. */
  method ReverseLines(data: Bytes, size: nat, chunk: nat) returns (lines: seq<Bytes>)
    requires size <= |data|
    ensures lines == NewestFirst(Split(data[..size], NEWLINE))
  {
    hide Split; hide NewestFirst;
    var block := if chunk == 0 then REVERSE_CHUNK else chunk;
    var pos, carry := size, [];
    lines := [];
    assert data[..size] + [] == data[..size];
    while pos > 0
      invariant 0 <= pos <= size && Free(carry, NEWLINE)
      invariant NewestFirst(Split(data[..size], NEWLINE)) == lines + NewestFirst(Split(data[..pos] + carry, NEWLINE))
    {
      var step := if block <= pos then block else pos;
      BlockStep(data, pos - step, pos, carry);
      pos := pos - step;
      var parts := Split(data[pos..pos + step] + carry, NEWLINE);
      carry := parts[0];
      var yielded := YieldParts(parts);
      lines := lines + yielded;
    }
    assert data[..0] + carry == carry;
    LastLine(carry);
    if carry != [] {
      lines := lines + [carry];
    }
  }

  // ----- reading back what was written

  /** Lines as appends write them. */
  function LogText(lines: seq<Bytes>): Bytes {
    if lines == [] then [] else lines[0] + [NEWLINE] + LogText(lines[1..])
  }

  lemma {:induction false} SplitLogText(lines: seq<Bytes>, torn: Bytes)
    requires Free(torn, NEWLINE) && forall i :: 0 <= i < |lines| ==> Free(lines[i], NEWLINE)
    ensures Split(LogText(lines) + torn, NEWLINE) == lines + [torn]
  {
    hide Split;
    if lines == [] {
      assert LogText(lines) + torn == torn;
      SplitLast(torn, NEWLINE);
    } else {
      var rest := LogText(lines[1..]) + torn;
      assert LogText(lines) + torn == lines[0] + [NEWLINE] + rest;
      SplitCut(lines[0], rest, NEWLINE);
      SplitLogText(lines[1..], torn);
      assert [lines[0]] + (lines[1..] + [torn]) == lines + [torn];
    }
  }

  lemma {:induction false} NewestFirstAt(lines: seq<Bytes>, k: nat)
    requires forall i :: 0 <= i < |lines| ==> lines[i] != []
    ensures |NewestFirst(lines)| == |lines| && (k < |lines| ==> NewestFirst(lines)[k] == lines[|lines| - 1 - k])
  {
    if lines != [] {
      NewestFirstAt(lines[1..], k);
    }
  }

  /** A file that was written line by line is read back newest first, each line once; a torn line at its end
      comes first. */
  lemma ReadsBack(lines: seq<Bytes>, torn: Bytes, k: nat)
    requires Free(torn, NEWLINE) && forall i :: 0 <= i < |lines| ==> lines[i] != [] && Free(lines[i], NEWLINE)
    ensures var r := NewestFirst(Split(LogText(lines) + torn, NEWLINE)); var first := if torn == [] then [] else [torn];
      && |r| == |first| + |lines| && first <= r
      && (k < |lines| ==> r[|first| + k] == lines[|lines| - 1 - k])
  {
    hide Split; hide LogText; hide NewestFirst;
    SplitLogText(lines, torn);
    NewestFirstConcat(lines, [torn]);
    LastLine(torn);
    SplitLast(torn, NEWLINE);
    NewestFirstAt(lines, k);
  }

  // ----- one page

  /** The filters of a page request: `matches` for the tool and client, and the oldest timestamp. */
  datatype Filter = Filter(matches: Entry -> bool, since: Option<Time>)

  predicate Keep(f: Filter, before: Option<nat>, e: Entry) {
    && (before.Some? ==> e.body.seqNo < before.value)
    && (f.since.Some? ==> e.body.ts >= f.since.value)
    && f.matches(e)
  }

  /** Everything a request could return, newest first. */
  function Selected(es: seq<Entry>, f: Filter, before: Option<nat>): seq<Entry> {
    if es == [] then []
    else
      var last := es[|es| - 1];
      (if Keep(f, before, last) then [last] else []) + Selected(es[..|es| - 1], f, before)
  }

  datatype Page = Page(entries: seq<Entry>, next: Option<nat>)

  function FirstPage(all: seq<Entry>, limit: nat): Page {
    if |all| <= limit then Page(all, None)
    else Page(all[..limit], if limit > 0 then Some(all[limit - 1].body.seqNo) else None)
  }

  lemma {:induction false} NothingOlder(es: seq<Entry>, f: Filter, before: Option<nat>)
    requires f.since.Some? && forall i :: 0 <= i < |es| ==> es[i].body.ts < f.since.value
    ensures Selected(es, f, before) == []
  {
    if es != [] { NothingOlder(es[..|es| - 1], f, before); }
  }

  lemma SelectedUpTo(es: seq<Entry>, i: nat, f: Filter, before: Option<nat>)
    requires i < |es|
    ensures var e := es[i];
      && Selected(es[..i + 1], f, before) == (if Keep(f, before, e) then [e] else []) + Selected(es[..i], f, before)
      && (Keep(f, before, e) <==> (before.Some? ==> e.body.seqNo < before.value) && (f.since.Some? ==> e.body.ts >= f.since.value) && f.matches(e))
  {
    assert es[..i + 1][..i] == es[..i];
  }

  lemma NoneSelected(es: seq<Entry>, f: Filter, before: Option<nat>)
    requires es == []
    ensures Selected(es, f, before) == []
  {}

  /** `_query_unlocked`: walks back from the newest entry and stops at the first that is too old. */
  method QueryPage(es: seq<Entry>, f: Filter, limit: nat, before: Option<nat>) returns (page: Page)
    requires TsAscend(es)
    ensures page == FirstPage(Selected(es, f, before), limit)
  {
    hide Selected; hide Keep; hide FirstPage; hide TsAscend;
    var out: seq<Entry> := [];
    var more := false;
    var i := |es|;
    assert es[..|es|] == es;
    ghost var rest := Selected(es[..i], f, before);
    while i > 0
      invariant 0 <= i <= |es| && !more && |out| <= limit
      invariant rest == Selected(es[..i], f, before) && Selected(es, f, before) == out + rest
    {
      i := i - 1;
      var e := es[i];
      SelectedUpTo(es, i, f, before);
      if before.Some? && e.body.seqNo >= before.value {
        continue;
      }
      if f.since.Some? && e.body.ts < f.since.value {
        TooOld(es, i, f, before);
        i, rest := 0, [];
        break;
      }
      if !f.matches(e) {
        continue;
      }
      if |out| >= limit {
        more := true;
        break;
      }
      out := out + [e];
      rest := Selected(es[..i], f, before);
    }
    if !more && i == 0 {
      NoneSelected(es[..0], f, before);
    }
    PageOf(Selected(es, f, before), out, rest, limit);
    if more {
      page := Page(out, if out != [] then Some(out[|out| - 1].body.seqNo) else None);
    } else {
      page := Page(out, None);
    }
  }

  /** An entry that is too old, in a log in time order, has nothing selected from it back. */
  lemma TooOld(es: seq<Entry>, i: nat, f: Filter, before: Option<nat>)
    requires TsAscend(es) && i < |es| && f.since.Some? && es[i].body.ts < f.since.value
    ensures Selected(es[..i + 1], f, before) == [] == Selected(es[..i], f, before) == Selected(es[..0], f, before)
  {
    NothingOlder(es[..i + 1], f, before);
    NothingOlder(es[..i], f, before);
  }

  lemma PageOf(all: seq<Entry>, out: seq<Entry>, rest: seq<Entry>, limit: nat)
    requires all == out + rest && |out| <= limit
    ensures rest == [] ==> FirstPage(all, limit) == Page(out, None)
    ensures rest != [] && |out| == limit ==>
      FirstPage(all, limit) == Page(out, if out != [] then Some(out[|out| - 1].body.seqNo) else None)
  {
    assert all[..|out|] == out;
  }

  // ----- following the cursor

  /** Sequence numbers rise along the log, as `verify` demands. */
  predicate SeqAscend(es: seq<Entry>) {
    forall i, j :: 0 <= i < j < |es| ==> es[i].body.seqNo < es[j].body.seqNo
  }

  /** The entries of all pages, the n-th read from the n-th state of the log, until there is no cursor. */
  function Follow(logs: seq<seq<Entry>>, f: Filter, limit: nat, before: Option<nat>): seq<Entry> {
    if logs == [] then []
    else
      var page := FirstPage(Selected(logs[0], f, before), limit);
      page.entries + if page.next.None? then [] else Follow(logs[1..], f, limit, page.next)
  }

  /** The log only grows from one request to the next. */
  predicate Growing(logs: seq<seq<Entry>>) {
    forall i, j :: 0 <= i <= j < |logs| ==> logs[i] <= logs[j]
  }

  lemma {:induction false} SelectedMember(es: seq<Entry>, f: Filter, before: Option<nat>, e: Entry)
    ensures e in Selected(es, f, before) <==> e in es && Keep(f, before, e)
  {
    if es != [] {
      SelectedMember(es[..|es| - 1], f, before, e);
      assert es == es[..|es| - 1] + [es[|es| - 1]];
    }
  }

  /** A page request lists each entry once, newest first. */
  lemma {:induction false} SelectedDescends(es: seq<Entry>, f: Filter, before: Option<nat>)
    requires SeqAscend(es)
    ensures var s := Selected(es, f, before); forall i, j :: 0 <= i < j < |s| ==> s[i].body.seqNo > s[j].body.seqNo
  {
    if es != [] {
      var rest := es[..|es| - 1];
      SelectedDescends(rest, f, before);
      forall j | 0 <= j < |Selected(rest, f, before)|
        ensures es[|es| - 1].body.seqNo > Selected(rest, f, before)[j].body.seqNo
      {
        SelectedMember(rest, f, before, Selected(rest, f, before)[j]);
      }
    }
  }

  /** A page holds entries of the log that match the filter, are not too old and lie before the cursor, the
      newest of them first, at most `limit`; a matching entry is missing only on a full page, which then ends
      in newer ones; and there is a next cursor, the number of the page's last entry, exactly when one is. */
  lemma PageMeans(es: seq<Entry>, f: Filter, limit: nat, before: Option<nat>, e: Entry)
    requires SeqAscend(es)
    ensures var page := FirstPage(Selected(es, f, before), limit); var ps := page.entries;
      var wanted := e in es && f.matches(e) && (before.None? || e.body.seqNo < before.value) && (f.since.None? || f.since.value <= e.body.ts);
      && |ps| <= limit && (forall i, j :: 0 <= i < j < |ps| ==> ps[j].body.seqNo < ps[i].body.seqNo)
      && (e in ps ==> wanted)
      && (wanted && e !in ps ==> |ps| == limit && (forall p :: p in ps ==> e.body.seqNo < p.body.seqNo) && (limit > 0 ==> page.next.Some?))
      && (page.next.Some? ==> |ps| == limit > 0 && page.next.value == ps[|ps| - 1].body.seqNo && |Selected(es, f, before)| > limit)
  {
    hide Selected; hide SeqAscend;
    var all := Selected(es, f, before);
    SelectedMember(es, f, before, e);
    SelectedDescends(es, f, before);
    if e in all {
      var n :| 0 <= n < |all| && all[n] == e;
      if n < limit && n < |FirstPage(all, limit).entries| { assert FirstPage(all, limit).entries[n] == e; }
    }
  }

  /** Entries appended after a cursor was handed out do not show up behind it. */
  lemma {:induction false} CursorIgnoresAppends(es: seq<Entry>, grown: seq<Entry>, f: Filter, cursor: nat)
    requires es <= grown && SeqAscend(grown) && es != [] && cursor <= es[|es| - 1].body.seqNo
    ensures Selected(grown, f, Some(cursor)) == Selected(es, f, Some(cursor))
  {
    if |grown| > |es| {
      CursorIgnoresAppends(es, grown[..|grown| - 1], f, cursor);
    } else {
      assert es == grown;
    }
  }

  /** A cursor continues exactly where its page stopped. */
  lemma {:induction false} CursorContinues(es: seq<Entry>, f: Filter, before: Option<nat>, n: nat)
    requires SeqAscend(es) && 0 < n <= |Selected(es, f, before)|
    ensures Selected(es, f, Some(Selected(es, f, before)[n - 1].body.seqNo)) == Selected(es, f, before)[n..]
  {
    var rest, last := es[..|es| - 1], es[|es| - 1];
    var all := Selected(es, f, before);
    var cursor := all[n - 1].body.seqNo;
    SelectedMember(es, f, before, all[n - 1]);
    if Keep(f, before, last) && n == 1 {
      SelectedBelow(rest, f, before, cursor);
    } else {
      var k := if Keep(f, before, last) then n - 1 else n;
      assert all[n - 1] == Selected(rest, f, before)[k - 1];
      SelectedMember(rest, f, before, all[n - 1]);
      CursorContinues(rest, f, before, k);
      assert all[n..] == Selected(rest, f, before)[k..];
    }
  }

  lemma {:induction false} SelectedBelow(es: seq<Entry>, f: Filter, before: Option<nat>, cursor: nat)
    requires forall i :: 0 <= i < |es| ==> es[i].body.seqNo < cursor
    requires before.Some? ==> cursor <= before.value
    ensures Selected(es, f, Some(cursor)) == Selected(es, f, before)
  {
    if es != [] { SelectedBelow(es[..|es| - 1], f, before, cursor); }
  }

  lemma CursorInLog(es: seq<Entry>, f: Filter, before: Option<nat>, i: nat)
    requires SeqAscend(es) && i < |Selected(es, f, before)|
    ensures es != [] && Selected(es, f, before)[i].body.seqNo <= es[|es| - 1].body.seqNo
  {
    SelectedMember(es, f, before, Selected(es, f, before)[i]);
  }

  /** Requests that `n` entries take, `limit` to a page. */
  function PagesFor(n: nat, limit: nat): (r: nat)
    requires limit > 0
    ensures r >= 1
  {
    if n <= limit then 1 else 1 + PagesFor(n - limit, limit)
  }

  /** Following the cursor through a growing log gives exactly the entries that matched when the
      first page was read, each once and newest first; after too few requests, the newest of them. */
  lemma {:induction false} PagesComplete(logs: seq<seq<Entry>>, f: Filter, limit: nat, before: Option<nat>)
    requires logs != [] && Growing(logs) && limit > 0
    requires forall i :: 0 <= i < |logs| ==> SeqAscend(logs[i])
    ensures Follow(logs, f, limit, before) <= Selected(logs[0], f, before)
    ensures |logs| >= PagesFor(|Selected(logs[0], f, before)|, limit) ==> Follow(logs, f, limit, before) == Selected(logs[0], f, before)
  {
    hide Selected; hide Keep; hide FirstPage; hide SeqAscend;
    var all := Selected(logs[0], f, before);
    FirstPageOf(all, limit);
    if |all| > limit {
      var cursor := all[limit - 1].body.seqNo;
      CursorContinues(logs[0], f, before, limit);
      if |logs| > 1 {
        var es := logs[0];
        CursorInLog(es, f, before, limit - 1);
        assert logs[0] <= logs[1];
        CursorIgnoresAppends(es, logs[1], f, cursor);
        forall i, j | 0 <= i <= j < |logs[1..]| ensures logs[1..][i] <= logs[1..][j] { assert logs[i + 1] <= logs[j + 1]; }
        PagesComplete(logs[1..], f, limit, Some(cursor));
        OnePageMore(all, Follow(logs[1..], f, limit, Some(cursor)), limit, |logs| - 1);
      } else {
        assert logs[1..] == [];
      }
    }
  }

  lemma FirstPageOf(all: seq<Entry>, limit: nat)
    requires limit > 0
    ensures |all| <= limit ==> FirstPage(all, limit) == Page(all, None)
    ensures |all| > limit ==> FirstPage(all, limit) == Page(all[..limit], Some(all[limit - 1].body.seqNo))
  {}

  /** The first page and then a prefix of the rest is a prefix of all, and all of it after enough requests. */
  lemma OnePageMore(all: seq<Entry>, later: seq<Entry>, limit: nat, n: nat)
    requires 0 < limit < |all| && later <= all[limit..] && (n >= PagesFor(|all| - limit, limit) ==> later == all[limit..])
    ensures all[..limit] + later <= all && (n + 1 >= PagesFor(|all|, limit) ==> all[..limit] + later == all)
  {
    assert all == all[..limit] + all[limit..];
  }

  /** A log that `verify` accepts has rising sequence numbers, so all of this applies to it. */
  lemma AcceptedAscends(env: Env, start: Head, es: seq<Entry>)
    requires Accepted(env, start, es)
    ensures SeqAscend(es)
  {
    forall i, j | 0 <= i < j < |es|
      ensures es[i].body.seqNo < es[j].body.seqNo
    {
      AcceptedSeqNo(env, start, es, i);
      AcceptedSeqNo(env, start, es, j);
    }
  }
}
