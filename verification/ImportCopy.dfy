/** The inbox import (`repo_tasks.py`): how a scan classifies published briefs
    against the destination queue, and what copying them does to the queue.
*/
module ImportCopy {
  import opened Prelude
  import opened PyText

  // ----- The scan -----------------------------------------------------------

  /** A published `*.md` blob; recurring sources are marked `autosplit`. */
  datatype Blob = Blob(stem: string, text: string, autosplit: bool)

  datatype Entry = Entry(name: string, text: string, duplicate: bool, updates: bool, started: bool)

  /** Templates, hidden files and recurring sources stay in the repository. */
  predicate IsImportable(b: Blob) {
    !(b.stem != "" && (b.stem[0] == '_' || b.stem[0] == '.')) && !b.autosplit
  }

  /** Against the queue's files and the tasks that have begun: an exact copy
      first, then an update of a waiting task, then one that came too late. */
  function Classify(b: Blob, files: map<string, string>, begun: set<string>): Entry {
    var duplicate := b.text in files.Values;
    var collides := !duplicate && b.stem in files;
    Entry(b.stem, b.text, duplicate, collides && b.stem !in begun, collides && b.stem in begun)
  }

  function Scanned(blobs: seq<Blob>, files: map<string, string>, begun: set<string>): seq<Entry> {
    if blobs == [] then []
    else
      var n := |blobs| - 1;
      Scanned(blobs[..n], files, begun) + if IsImportable(blobs[n]) then [Classify(blobs[n], files, begun)] else []
  }

  /** `_scan_inboxes`, over the blobs in published order. */
  method ScanInboxes(blobs: seq<Blob>, files: map<string, string>, begun: set<string>) returns (out: seq<Entry>)
    ensures out == Scanned(blobs, files, begun)
  {
    var existing, queued := files.Values, files.Keys;
    out := [];
    for i := 0 to |blobs|
      invariant out == Scanned(blobs[..i], files, begun)
    {
      assert blobs[..i + 1][..i] == blobs[..i];
      if !IsImportable(blobs[i]) {
        continue;
      }
      var duplicate := blobs[i].text in existing;
      var collides := !duplicate && blobs[i].stem in queued;
      out := out + [Entry(blobs[i].stem, blobs[i].text, duplicate,
                          collides && blobs[i].stem !in begun, collides && blobs[i].stem in begun)];
    }
    assert blobs[..|blobs|] == blobs;
  }

  /** What a published brief stays in the repository for: a template, a hidden
      file, a recurring source. */
  predicate StaysPublished(b: Blob) {
    b.autosplit || "_" <= b.stem || "." <= b.stem
  }

  /** The entry tells its brief, and at most one of three things about it: the
      queue already has this very text; it has a waiting task of this name; or a
      task of this name that has begun. */
  predicate IsEntryOf(e: Entry, b: Blob, files: map<string, string>, begun: set<string>) {
    && e.name == b.stem && e.text == b.text
    && (e.duplicate <==> exists p :: p in files && files[p] == b.text)
    && (e.updates ==> !e.duplicate && !e.started) && (e.started ==> !e.duplicate)
    && (e.updates || e.started <==> b.stem in files && !e.duplicate)
    && (e.started ==> b.stem in begun) && (e.updates ==> b.stem !in begun)
  }

  /** The scan holds, in published order, exactly the briefs that do not stay
      in the repository. */
  lemma {:induction false} ScanHoldsExactly(blobs: seq<Blob>, files: map<string, string>, begun: set<string>,
                                            p: nat -> bool)
    requires forall i: nat :: i < |blobs| ==> p(i) == !StaysPublished(blobs[i])
    ensures |Places(|blobs|, p)| == |Scanned(blobs, files, begun)|
    ensures forall k :: 0 <= k < |Places(|blobs|, p)| ==>
              var i := Places(|blobs|, p)[k];
              i < |blobs| && IsEntryOf(Scanned(blobs, files, begun)[k], blobs[i], files, begun)
  {
    if blobs == [] {
    } else {
      var n := |blobs| - 1;
      ScanHoldsExactly(blobs[..n], files, begun, p);
      assert IsEntryOf(Classify(blobs[n], files, begun), blobs[n], files, begun);
    }
  }

  // ----- Names --------------------------------------------------------------

  function Suffixed(name: string, n: nat): string {
    name + "-" + Digits(n)
  }

  lemma SuffixesDiffer(name: string, m: nat, n: nat)
    requires Suffixed(name, m) == Suffixed(name, n)
    ensures m == n
  {
    assert Suffixed(name, m)[|name| + 1..] == Digits(m) && Suffixed(name, n)[|name| + 1..] == Digits(n);
    DigitsRoundTrip(m);
    DigitsRoundTrip(n);
  }

  /** The name itself when it is free, or its first free suffix from 2 on. */
  ghost predicate IsFirstFree(name: string, taken: set<string>, free: string) {
    free !in taken
    && (free == name || (name in taken && exists n: nat :: n >= 2 && free == Suffixed(name, n)
                                            && forall m: nat :: 2 <= m < n ==> Suffixed(name, m) in taken))
  }

  /** The suffixes below `k` are `k - 2` different names. */
  lemma {:induction false} TakenSuffixes(name: string, taken: set<string>, k: nat)
    requires k >= 2 && forall m: nat :: 2 <= m < k ==> Suffixed(name, m) in taken
    ensures k - 2 <= |taken|
  {
    if k <= 2 {
    } else {
      var last := Suffixed(name, k - 1);
      forall m: nat | 2 <= m < k - 1
        ensures Suffixed(name, m) in taken - {last}
      {
        if Suffixed(name, m) == last {
          SuffixesDiffer(name, m, k - 1);
        }
      }
      TakenSuffixes(name, taken - {last}, k - 1);
    }
  }

  /** The bump loop; it ends because the suffixes are all different. */
  method FreeName(name: string, taken: set<string>) returns (free: string)
    ensures IsFirstFree(name, taken, free)
  {
    free := name;
    var n: nat := 2;
    while free in taken
      invariant n >= 2 && n - 3 <= |taken|
      invariant if n == 2 then free == name else name in taken && free == Suffixed(name, n - 1)
      invariant forall m: nat :: 2 <= m < n - 1 ==> Suffixed(name, m) in taken
      decreases |taken| + 3 - n
    {
      TakenSuffixes(name, taken, n);
      free := Suffixed(name, n);
      n := n + 1;
    }
  }

  // ----- The copy -----------------------------------------------------------

  datatype Imported = Imported(task: string, replaced: bool)

  /** The entries that are written: neither here already nor begun. */
  function Selected(entries: seq<Entry>): seq<Entry> {
    if entries == [] then []
    else
      var n := |entries| - 1;
      Selected(entries[..n]) + if entries[n].duplicate || entries[n].started then [] else [entries[n]]
  }

  function Names(imported: seq<Imported>): set<string> {
    set i | 0 <= i < |imported| :: imported[i].task
  }

  function Appended(imported: seq<Imported>): seq<string> {
    if imported == [] then []
    else
      var n := |imported| - 1;
      Appended(imported[..n]) + if imported[n].replaced then [] else [imported[n].task]
  }

  /** How the `k`-th written entry got its name: in place of the waiting task
      it replaces, unless an earlier brief of the batch took that name; else
      the first name free in the queue. */
  ghost predicate IsNamed(was: map<string, string>, selected: seq<Entry>, imported: seq<Imported>, k: nat)
    requires k < |selected| == |imported|
  {
    var entry, before := selected[k], Names(imported[..k]);
    && (imported[k].replaced <==> entry.updates && entry.name in was && entry.name !in before)
    && (if imported[k].replaced then imported[k].task == entry.name
        else IsFirstFree(entry.name, was.Keys + before, imported[k].task))
  }

  ghost predicate AreNamed(was: map<string, string>, selected: seq<Entry>, imported: seq<Imported>) {
    |imported| == |selected| && forall k :: 0 <= k < |imported| ==> IsNamed(was, selected, imported, k)
  }

  predicate AreDistinct(imported: seq<Imported>) {
    forall j, k :: 0 <= j < k < |imported| ==> imported[j].task != imported[k].task
  }

  /** Each written file ends up with its own entry's text. */
  predicate HoldsTexts(selected: seq<Entry>, imported: seq<Imported>, now: map<string, string>)
    requires |imported| == |selected|
  {
    forall k :: 0 <= k < |imported| ==> imported[k].task in now && now[imported[k].task] == selected[k].text
  }

  /** Nothing else appears, and what was there and not written is unchanged. */
  predicate KeepsOthers(was: map<string, string>, imported: seq<Imported>, now: map<string, string>) {
    now.Keys == was.Keys + Names(imported) && forall p :: p in was && p !in Names(imported) ==> now[p] == was[p]
  }

  /** What a copy of `selected` into a queue holding `was` leaves behind. */
  ghost predicate IsCopy(was: map<string, string>, selected: seq<Entry>, imported: seq<Imported>,
                         now: map<string, string>) {
    AreNamed(was, selected, imported) && AreDistinct(imported) && HoldsTexts(selected, imported, now)
    && KeepsOthers(was, imported, now)
  }

  lemma NamesGrow(imported: seq<Imported>, one: Imported)
    ensures Names(imported + [one]) == Names(imported) + {one.task}
    ensures Appended(imported + [one]) == Appended(imported) + if one.replaced then [] else [one.task]
  {
    var all := imported + [one];
    assert all[..|imported|] == imported;
    assert forall i :: 0 <= i < |imported| ==> all[i] == imported[i];
    assert all[|imported|] == one;
  }

  lemma NamedStays(was: map<string, string>, selected: seq<Entry>, imported: seq<Imported>, entry: Entry,
                   one: Imported, k: nat)
    requires k < |selected| == |imported| && IsNamed(was, selected, imported, k)
    ensures IsNamed(was, selected + [entry], imported + [one], k)
  {
    assert (imported + [one])[..k] == imported[..k];
  }

  lemma OneMoreNamed(was: map<string, string>, selected: seq<Entry>, imported: seq<Imported>, entry: Entry,
                     one: Imported)
    requires AreNamed(was, selected, imported)
    requires one.replaced <==> entry.updates && entry.name in was && entry.name !in Names(imported)
    requires if one.replaced then one.task == entry.name
             else IsFirstFree(entry.name, was.Keys + Names(imported), one.task)
    ensures AreNamed(was, selected + [entry], imported + [one])
  {
    var all := imported + [one];
    assert all[..|imported|] == imported;
    forall k | 0 <= k < |all|
      ensures IsNamed(was, selected + [entry], all, k)
    {
      if k < |imported| {
        NamedStays(was, selected, imported, entry, one, k);
      }
    }
  }

  lemma OneMoreText(selected: seq<Entry>, imported: seq<Imported>, now: map<string, string>, entry: Entry,
                    one: Imported)
    requires |imported| == |selected| && AreDistinct(imported) && HoldsTexts(selected, imported, now)
    requires one.task !in Names(imported)
    ensures AreDistinct(imported + [one])
            && HoldsTexts(selected + [entry], imported + [one], now[one.task := entry.text])
  {
    forall k | 0 <= k < |imported|
      ensures imported[k].task != one.task
    {
      assert imported[k].task in Names(imported);
    }
  }

  /** One more entry written. */
  lemma CopyOne(was: map<string, string>, selected: seq<Entry>, imported: seq<Imported>, now: map<string, string>,
                entry: Entry, one: Imported)
    requires IsCopy(was, selected, imported, now)
    requires one.replaced <==> entry.updates && entry.name in was && entry.name !in Names(imported)
    requires if one.replaced then one.task == entry.name
             else IsFirstFree(entry.name, was.Keys + Names(imported), one.task)
    ensures IsCopy(was, selected + [entry], imported + [one], now[one.task := entry.text])
  {
    NamesGrow(imported, one);
    OneMoreNamed(was, selected, imported, entry, one);
    OneMoreText(selected, imported, now, entry, one);
  }

  lemma SelectedNext(entries: seq<Entry>, i: nat)
    requires i < |entries|
    ensures Selected(entries[..i + 1]) ==
            if entries[i].duplicate || entries[i].started then Selected(entries[..i])
              else Selected(entries[..i]) + [entries[i]]
  {
    assert entries[..i + 1][..i] == entries[..i];
  }

  class Queue {
    // The briefs by stem, and the execution order of `config.json`.
    var files: map<string, string>
    var order: seq<string>

    /** `copy_repo_tasks`. */
    method CopyRepoTasks(entries: seq<Entry>) returns (imported: seq<Imported>)
      modifies this
      ensures IsCopy(old(files), Selected(entries), imported, files)
      ensures order == old(order) + Appended(imported)
    {
      imported := [];
      var written: set<string>, appended: seq<string> := {}, [];
      for i := 0 to |entries|
        invariant order == old(order) && written == Names(imported) && appended == Appended(imported)
        invariant IsCopy(old(files), Selected(entries[..i]), imported, files)
      {
        imported, written, appended := CopyNext(old(files), entries, i, imported, written, appended);
      }
      assert entries[..|entries|] == entries;
      if appended != [] {
        order := order + appended;
      }
    }

    /** The body of the loop. */
    method CopyNext(ghost was: map<string, string>, entries: seq<Entry>, i: nat, before: seq<Imported>,
                    taken: set<string>, names: seq<string>)
      returns (imported: seq<Imported>, written: set<string>, appended: seq<string>)
      requires i < |entries| && IsCopy(was, Selected(entries[..i]), before, files)
      requires taken == Names(before) && names == Appended(before)
      modifies this`files
      ensures IsCopy(was, Selected(entries[..i + 1]), imported, files)
      ensures written == Names(imported) && appended == Appended(imported)
    {
      imported, written, appended := before, taken, names;
      SelectedNext(entries, i);
      if entries[i].duplicate || entries[i].started {
        return;
      }
      var one := WriteOne(was, Selected(entries[..i]), before, entries[i], taken);
      NamesGrow(before, one);
      if !one.replaced {
        appended := appended + [one.task];
      } else {
        assert names + [] == names;
      }
      written := written + {one.task};
      imported := imported + [one];
    }

    /** An entry that is written. */
    method WriteOne(ghost was: map<string, string>, ghost selected: seq<Entry>, ghost imported: seq<Imported>,
                    entry: Entry, written: set<string>)
      returns (one: Imported)
      requires IsCopy(was, selected, imported, files) && written == Names(imported)
      modifies this`files
      ensures IsCopy(was, selected + [entry], imported + [one], files)
    {
      var name := entry.name;
      var replaced := entry.updates && name !in written && name in files;
      if !replaced {
        assert written + files.Keys == was.Keys + Names(imported);
        name := FreeName(entry.name, written + files.Keys);
      }
      one := Imported(name, replaced);
      CopyOne(was, selected, imported, files, entry, one);
      files := files[name := entry.text];
    }
  }

  // ----- What an import guarantees ------------------------------------------

  /** The copy writes, in scan order, exactly the entries that are neither
      duplicates nor too late. */
  lemma {:induction false} SelectionHoldsExactly(entries: seq<Entry>, p: nat -> bool)
    requires forall i: nat :: i < |entries| ==> p(i) == IsNews(entries[i])
    ensures |Places(|entries|, p)| == |Selected(entries)|
    ensures forall k :: 0 <= k < |Places(|entries|, p)| ==>
              IsEntryAt(entries, Places(|entries|, p)[k], Selected(entries)[k])
  {
    if entries == [] {
    } else {
      var n := |entries| - 1;
      SelectionHoldsExactly(entries[..n], p);
      var before := Selected(entries[..n]);
      assert Selected(entries) == before + if IsNews(entries[n]) then [entries[n]] else [];
    }
  }

  predicate IsNews(e: Entry) {
    !e.duplicate && !e.started
  }

  predicate IsEntryAt(entries: seq<Entry>, i: nat, e: Entry) {
    i < |entries| && entries[i] == e
  }

  lemma {:induction false} SelectedAreWritable(entries: seq<Entry>)
    ensures forall e :: e in Selected(entries) <==> e in entries && !e.duplicate && !e.started
  {
    if entries == [] {
    } else {
      SelectedAreWritable(entries[..|entries| - 1]);
    }
  }

  /** A brief that was already queued changes only if an entry of its name
      updates it, and then to that entry's text. */
  lemma OnlyUpdatesChangeBriefs(was: map<string, string>, entries: seq<Entry>, imported: seq<Imported>,
                                now: map<string, string>, p: string)
    requires IsCopy(was, Selected(entries), imported, now) && p in was
    ensures p in now && (now[p] != was[p] ==>
              exists e :: e in entries && e.name == p && e.updates && !e.duplicate && !e.started && now[p] == e.text)
  {
    var selected := Selected(entries);
    SelectedAreWritable(entries);
    if now[p] != was[p] {
      var k :| 0 <= k < |imported| && imported[k].task == p;
      assert IsNamed(was, selected, imported, k);
      assert selected[k] in selected;
    }
  }

  /** A freshly written brief takes no name that was in the queue. */
  lemma FreshNamesAreNew(was: map<string, string>, selected: seq<Entry>, imported: seq<Imported>,
                         now: map<string, string>, k: nat)
    requires IsCopy(was, selected, imported, now) && k < |imported|
    ensures imported[k].replaced <==> imported[k].task in was
  {
    assert IsNamed(was, selected, imported, k);
  }

  lemma WrittenTextsAreThere(selected: seq<Entry>, imported: seq<Imported>, now: map<string, string>, w: Entry)
    requires |imported| == |selected| && HoldsTexts(selected, imported, now) && w in selected
    ensures w.text in now.Values
  {
    var k :| 0 <= k < |selected| && selected[k] == w;
    assert now[imported[k].task] == w.text;
  }

  lemma TextsComeFromSomewhere(was: map<string, string>, selected: seq<Entry>, imported: seq<Imported>,
                               now: map<string, string>, p: string)
    requires IsCopy(was, selected, imported, now) && p in now
    ensures (p in was && p !in Names(imported)) || exists w :: w in selected && w.text == now[p]
  {
    if p in Names(imported) {
      var k :| 0 <= k < |imported| && imported[k].task == p;
      assert selected[k] in selected && selected[k].text == now[p];
    }
  }

  /** An entry that the import writes. */
  predicate IsWritten(entries: seq<Entry>, e: Entry) {
    e in entries && !e.duplicate && !e.started
  }

  /** Some written entry updates the queued task of this name. */
  ghost predicate IsUpdated(entries: seq<Entry>, name: string) {
    exists e :: IsWritten(entries, e) && e.updates && e.name == name
  }

  /** A queued brief is written exactly when an entry of the batch updates it,
      whatever names the copy has given to the others. */
  lemma QueuedIsWrittenExactly(was: map<string, string>, entries: seq<Entry>, imported: seq<Imported>,
                               now: map<string, string>, name: string)
    requires IsCopy(was, Selected(entries), imported, now) && name in was
    ensures name in Names(imported) <==> IsUpdated(entries, name)
  {
    var selected := Selected(entries);
    SelectedAreWritable(entries);
    if name in Names(imported) {
      var k :| 0 <= k < |imported| && imported[k].task == name;
      FreshNamesAreNew(was, selected, imported, now, k);
      assert IsNamed(was, selected, imported, k) && selected[k] in selected;
      assert IsWritten(entries, selected[k]);
    }
    if e :| IsWritten(entries, e) && e.updates && e.name == name {
      var k :| 0 <= k < |selected| && selected[k] == e;
      assert IsNamed(was, selected, imported, k);
      if name in Names(imported[..k]) {
        var j :| 0 <= j < k && imported[..k][j].task == name;
        assert imported[j].task == name;
      }
    }
  }

  /** A text is in the queue afterwards exactly when an entry with it is
      written, or some queued brief that says it is not updated. So what leaves
      the repository is lost only where it was a duplicate and every queued
      copy of it is updated: something the batch and the queue tell
      beforehand. */
  lemma TextsSurviveExactly(was: map<string, string>, entries: seq<Entry>, imported: seq<Imported>,
                            now: map<string, string>, text: string)
    requires IsCopy(was, Selected(entries), imported, now)
    ensures text in now.Values <==>
            || (exists p :: p in was && was[p] == text && !IsUpdated(entries, p))
            || (exists e :: IsWritten(entries, e) && e.text == text)
  {
    SelectedAreWritable(entries);
    if text in now.Values {
      var p :| p in now && now[p] == text;
      TextsComeFromSomewhere(was, Selected(entries), imported, now, p);
      if w :| w in Selected(entries) && w.text == text {
        assert IsWritten(entries, w);
      } else {
        QueuedIsWrittenExactly(was, entries, imported, now, p);
      }
    } else {
      forall e | IsWritten(entries, e)
        ensures e.text != text
      {
        WrittenTextsAreThere(Selected(entries), imported, now, e);
      }
      forall p | p in was && was[p] == text
        ensures IsUpdated(entries, p)
      {
        assert p in now && now[p] in now.Values;
        QueuedIsWrittenExactly(was, entries, imported, now, p);
      }
    }
  }

  /** The execution order gains exactly the fresh names, in the order they were
      written. */
  lemma {:induction false} OrderGainsTheFreshNames(imported: seq<Imported>, p: nat -> bool)
    requires forall i: nat :: i < |imported| ==> p(i) == !imported[i].replaced
    ensures |Places(|imported|, p)| == |Appended(imported)|
    ensures forall k :: 0 <= k < |Places(|imported|, p)| ==>
              IsNameAt(imported, Places(|imported|, p)[k], Appended(imported)[k])
  {
    if imported == [] {
    } else {
      OrderGainsTheFreshNames(imported[..|imported| - 1], p);
    }
  }

  /** The `i`-th file written has this name. */
  predicate IsNameAt(imported: seq<Imported>, i: nat, name: string) {
    i < |imported| && imported[i].task == name
  }

  // ----- Scan and copy together ---------------------------------------------

  lemma {:induction false} ScannedAreClassified(blobs: seq<Blob>, files: map<string, string>, begun: set<string>,
                                                e: Entry)
    requires e in Scanned(blobs, files, begun)
    ensures exists b :: b in blobs && IsImportable(b) && e == Classify(b, files, begun)
  {
    var n := |blobs| - 1;
    if e in Scanned(blobs[..n], files, begun) {
      ScannedAreClassified(blobs[..n], files, begun, e);
    } else {
      assert blobs[n] in blobs;
    }
  }

  /** However the queue has changed between the scan and the copy, a task that
      had begun by the scan keeps its brief, and so does a queued task no
      published brief is named after. */
  lemma BegunBriefsAreNeverRewritten(blobs: seq<Blob>, scanned: map<string, string>, begun: set<string>,
                                     was: map<string, string>, imported: seq<Imported>,
                                       now: map<string, string>, p: string)
    requires IsCopy(was, Selected(Scanned(blobs, scanned, begun)), imported, now) && p in was
    requires p in begun || forall b :: b in blobs ==> b.stem != p
    ensures p in now && now[p] == was[p]
  {
    var entries := Scanned(blobs, scanned, begun);
    OnlyUpdatesChangeBriefs(was, entries, imported, now, p);
    if now[p] != was[p] {
      var e :| e in entries && e.name == p && e.updates;
      ScannedAreClassified(blobs, scanned, begun, e);
    }
  }

  /** Some queued copy of the text is not the target of an update. */
  ghost predicate IsCopyUntouched(entries: seq<Entry>, was: map<string, string>, text: string) {
    exists p :: p in was && was[p] == text && !IsUpdated(entries, p)
  }

  /** On a queue that did not change in between, a drained text survives exactly
      unless it was a duplicate and updates overwrite every copy of it. */
  lemma DrainedTextsSurvive(blobs: seq<Blob>, was: map<string, string>, begun: set<string>, imported: seq<Imported>,
                            now: map<string, string>, e: Entry)
    requires IsCopy(was, Selected(Scanned(blobs, was, begun)), imported, now)
    requires e in Scanned(blobs, was, begun) && !e.started
    ensures e.text in now.Values <==> !e.duplicate || IsCopyUntouched(Scanned(blobs, was, begun), was, e.text)
  {
    var entries := Scanned(blobs, was, begun);
    TextsSurviveExactly(was, entries, imported, now, e.text);
    if e.duplicate {
      ScannedAreClassified(blobs, was, begun, e);
      forall w | IsWritten(entries, w)
        ensures w.text != e.text
      {
        ScannedAreClassified(blobs, was, begun, w);
      }
    } else {
      assert IsWritten(entries, e);
    }
  }

  /** Where it did, the text is gone: one brief updates the queued task, the
      other is published as the copy of what that task used to say. */
  lemma OverwrittenDuplicatesAreLost(task: string, other: string, was: string, now: string, imported: seq<Imported>,
                                     after: map<string, string>)
    requires IsImportable(Blob(task, now, false)) && IsImportable(Blob(other, was, false)) && was != now
    requires IsCopy(map[task := was],
                    Selected(Scanned([Blob(task, now, false), Blob(other, was, false)], map[task := was], {})),
                    imported, after)
    ensures was !in after.Values
  {
    var files, first, second := map[task := was], Blob(task, now, false), Blob(other, was, false);
    assert files[task] == was && was in files.Values;
    TwoAreScanned(first, second, files);
    var update, copy := Classify(first, files, {}), Classify(second, files, {});
    assert IsWritten([update, copy], update) && !IsWritten([update, copy], copy);
    TextsSurviveExactly(files, [update, copy], imported, after, was);
  }

  lemma TwoAreScanned(first: Blob, second: Blob, files: map<string, string>)
    requires IsImportable(first) && IsImportable(second)
    ensures Scanned([first, second], files, {}) == [Classify(first, files, {}), Classify(second, files, {})]
  {
    assert [first, second][..1] == [first] && [first][..0] == [];
    assert Scanned([first], files, {}) == [] + [Classify(first, files, {})];
  }
}
