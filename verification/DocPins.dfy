/** Document pinning (`docs_resolve.py`): the resolver that pins a task's
    documents to blobs, and the git-free path that rebuilds the same work
    order from the persisted pin.

    Path normalisation and media sniffing are parameters; the two stores are
    what git answers about the target and the tasks repository.
*/
module DocPins {
  import opened Prelude

  // ----- Inputs -------------------------------------------------------------

  datatype Spec = Spec(path: string, range: Option<string>, title: Option<string>, steps: seq<string>)

  /** A declared document, in order: path documents, then attachments. */
  datatype Item = Document(spec: Spec) | Attachment(spec: Spec)

  datatype PinRecord = PinRecord(sha: string, media: string, bytes: nat)

  type Pin = map<string, PinRecord>

  /** `head` is None when the blob's bytes cannot be read. */
  datatype Blob = Blob(size: nat, head: Option<string>)

  /** The reachable blobs, and the blob at each path of the ref resolved
      against. */
  datatype Store = Store(blobs: map<string, Blob>, at: map<string, string>)

  /** `target` is None without a repository or a base ref. */
  datatype Env = Env(target: Option<Store>, tasks: Store)

  datatype Rules = Rules(capSetting: int, budget: int, allowed: seq<string>,
                         normalize: string -> Option<string>, sniff: (string, string) -> Option<string>)

  const CEILING := 5 * 1024 * 1024

  function Cap(rules: Rules): int {
    if rules.capSetting <= CEILING then rules.capSetting else CEILING
  }

  predicate IsBinary(media: string) {
    !("text/" <= media) && media != "application/json" && media != "application/yaml"
  }

  predicate IsAllowed(media: string, allowed: seq<string>) {
    exists i | 0 <= i < |allowed| ::
      var p := allowed[i];
      p == media || (|p| >= 2 && p[|p| - 2..] == "/*" && p[..|p| - 1] <= media)
  }

  function LastSegment(path: string): string {
    if '/' !in path then path
    else if path[|path| - 1] == '/' then ""
    else LastSegment(path[..|path| - 1]) + [path[|path| - 1]]
  }

  // ----- One document -------------------------------------------------------

  function Name(item: Item): string {
    LastSegment(item.spec.path)
  }

  /** The path a document is looked up at; None when it leaves the repo. */
  function Location(item: Item, rules: Rules): Option<string> {
    match item
    case Document(spec) => rules.normalize(spec.path)
    case Attachment(_) => if rules.normalize(Name(item)).None? then None else Some(Name(item))
  }

  const ATTACH := "attach:"

  function Key(item: Item, location: string): string {
    if item.Document? then location else ATTACH + location
  }

  function StoreOf(item: Item, env: Env): Option<Store> {
    if item.Document? then env.target else Some(env.tasks)
  }

  datatype Reason =
    OutsideRepo | NoTargetRepo | NotFound | Mislabelled | Unsupported | RangeOnBinary | OverCap | OverBudget

  /** `kept` when the pinned blob is still reachable. */
  datatype Found = Found(key: string, record: PinRecord, kept: bool)

  /** The pinned blob while it is reachable, otherwise the one at the ref. */
  function Locate(item: Item, location: string, pin: Pin, store: Store, rules: Rules): Result<Found, Reason> {
    var key := Key(item, location);
    if key in pin && pin[key].sha in store.blobs then
      Ok(Found(key, PinRecord(pin[key].sha, pin[key].media, store.blobs[pin[key].sha].size), true))
    else if location !in store.at || store.at[location] !in store.blobs then Err(NotFound)
    else
      var sha := store.at[location];
      if store.blobs[sha].head.None? then Err(NotFound)
      else
        var media := rules.sniff(location, store.blobs[sha].head.value);
        if media.None? then Err(Mislabelled)
        else Ok(Found(key, PinRecord(sha, media.value, store.blobs[sha].size), false))
  }

  predicate HasRange(spec: Spec) {
    spec.range.Some? && spec.range.value != ""
  }

  /** Everything the loop body checks about one document. */
  function Judge(item: Item, pin: Pin, env: Env, rules: Rules): Result<Found, Reason> {
    var location := Location(item, rules);
    if location.None? then Err(OutsideRepo)
    else if StoreOf(item, env).None? then Err(NoTargetRepo)
    else
      var found := Locate(item, location.value, pin, StoreOf(item, env).value, rules);
      if found.Err? then found
      else if !IsAllowed(found.value.record.media, rules.allowed) then Err(Unsupported)
      else if HasRange(item.spec) && IsBinary(found.value.record.media) then Err(RangeOnBinary)
      else if found.value.record.bytes > Cap(rules) then Err(OverCap)
      else found
  }

  /** Whether the document is handed to this workflow step. */
  predicate IsEmitted(spec: Spec, step: Option<string>) {
    spec.steps == [] || step.None? || step.value == "" || step.value in spec.steps
  }

  /** What a work order says about a document; name and label derive from the
      spec alone. */
  datatype Entry = Entry(item: Item, key: string, record: PinRecord, range: Option<string>)

  // ----- The resolver's result ----------------------------------------------

  /** `founds` is what the loops find for each document. */
  ghost predicate AreFound(items: seq<Item>, founds: seq<Found>, pin: Pin, env: Env, rules: Rules) {
    |founds| == |items|
    && forall i :: 0 <= i < |items| ==> Judge(items[i], pin, env, rules) == Ok(founds[i])
  }

  function EntryOf(item: Item, found: Found): Entry {
    Entry(item, found.key, found.record, if HasRange(item.spec) then item.spec.range else None)
  }

  function EntriesOf(items: seq<Item>, founds: seq<Found>, step: Option<string>): seq<Entry>
    requires |founds| == |items|
  {
    if items == [] then []
    else
      var n := |items| - 1;
      EntriesOf(items[..n], founds[..n], step)
      + if IsEmitted(items[n].spec, step) then [EntryOf(items[n], founds[n])] else []
  }

  /** The pin to persist: every document, emitted or not; a later document of
      the same key wins. */
  function PinOf(founds: seq<Found>): Pin {
    if founds == [] then map[]
    else var n := |founds| - 1; PinOf(founds[..n])[founds[n].key := founds[n].record]
  }

  function Bytes(entries: seq<Entry>): nat {
    if entries == [] then 0 else Bytes(entries[..|entries| - 1]) + entries[|entries| - 1].record.bytes
  }

  /** A freshly resolved blob that is not what the pin said. */
  predicate IsMoved(found: Found, pin: Pin) {
    !found.kept && (found.key !in pin || pin[found.key] != found.record)
  }

  predicate IsAnyMoved(founds: seq<Found>, pin: Pin) {
    exists i :: 0 <= i < |founds| && IsMoved(founds[i], pin)
  }

  predicate IsDirty(founds: seq<Found>, pin: Pin) {
    IsAnyMoved(founds, pin) || PinOf(founds).Keys != pin.Keys
  }

  datatype Resolved = Resolved(entries: seq<Entry>, pin: Pin, dirty: bool) | Blocked(reason: Reason)

  /** The first document that cannot be used blocks the task. */
  ghost predicate IsBlockedAt(items: seq<Item>, i: nat, pin: Pin, env: Env, rules: Rules, reason: Reason)
    requires i < |items|
  {
    && Judge(items[i], pin, env, rules) == Err(reason)
    && forall k :: 0 <= k < i ==> Judge(items[k], pin, env, rules).Ok?
  }

  function Resolution(items: seq<Item>, founds: seq<Found>, pin: Pin, rules: Rules, step: Option<string>): Resolved
    requires |founds| == |items|
  {
    var entries := EntriesOf(items, founds, step);
    if Bytes(entries) > rules.budget then Blocked(OverBudget)
    else Resolved(entries, PinOf(founds), IsDirty(founds, pin))
  }

  ghost predicate IsResolution(items: seq<Item>, pin: Pin, env: Env, rules: Rules, step: Option<string>, r: Resolved) {
    || (r.Blocked? && exists i: nat :: i < |items| && IsBlockedAt(items, i, pin, env, rules, r.reason))
    || (exists founds :: AreFound(items, founds, pin, env, rules) && r == Resolution(items, founds, pin, rules, step))
  }

  function Documents(docs: seq<Spec>): seq<Item> {
    seq(|docs|, i requires 0 <= i < |docs| => Document(docs[i]))
  }

  function Attachments(attachments: seq<Spec>): seq<Item> {
    seq(|attachments|, i requires 0 <= i < |attachments| => Attachment(attachments[i]))
  }

  function Items(docs: seq<Spec>, attachments: seq<Spec>): seq<Item> {
    Documents(docs) + Attachments(attachments)
  }

  /** The accumulators of the loops. */
  datatype Acc = Acc(entries: seq<Entry>, pin: Pin, dirty: bool, total: nat)

  ghost predicate IsPartial(items: seq<Item>, founds: seq<Found>, pin: Pin, step: Option<string>, acc: Acc) {
    && |founds| == |items|
    && acc.entries == EntriesOf(items, founds, step) && acc.pin == PinOf(founds)
    && acc.dirty == IsAnyMoved(founds, pin) && acc.total == Bytes(acc.entries)
  }

  lemma EntriesAppend(items: seq<Item>, founds: seq<Found>, step: Option<string>, item: Item, found: Found)
    requires |founds| == |items|
    ensures EntriesOf(items + [item], founds + [found], step) ==
            EntriesOf(items, founds, step) + if IsEmitted(item.spec, step) then [EntryOf(item, found)] else []
  {
    assert (items + [item])[..|items|] == items && (founds + [found])[..|founds|] == founds;
  }

  lemma PinAppend(founds: seq<Found>, found: Found)
    ensures PinOf(founds + [found]) == PinOf(founds)[found.key := found.record]
  {
    assert (founds + [found])[..|founds|] == founds;
  }

  lemma BytesAppend(entries: seq<Entry>, e: Entry)
    ensures Bytes(entries + [e]) == Bytes(entries) + e.record.bytes
  {
    assert (entries + [e])[..|entries|] == entries;
  }

  lemma MovedAppend(founds: seq<Found>, pin: Pin, found: Found)
    ensures IsAnyMoved(founds + [found], pin) <==> IsAnyMoved(founds, pin) || IsMoved(found, pin)
  {
    var all := founds + [found];
    assert all[|founds|] == found && forall i :: 0 <= i < |founds| ==> all[i] == founds[i];
  }

  /** What one more document does to the accumulators. */
  function Taken(acc: Acc, pin: Pin, step: Option<string>, item: Item, found: Found): Acc {
    Acc(acc.entries + if IsEmitted(item.spec, step) then [EntryOf(item, found)] else [],
        acc.pin[found.key := found.record], acc.dirty || IsMoved(found, pin),
        acc.total + if IsEmitted(item.spec, step) then found.record.bytes else 0)
  }

  lemma PartialStep(items: seq<Item>, founds: seq<Found>, pin: Pin, step: Option<string>, acc: Acc, item: Item,
                    found: Found)
    requires IsPartial(items, founds, pin, step, acc)
    ensures IsPartial(items + [item], founds + [found], pin, step, Taken(acc, pin, step, item, found))
  {
    var taken := Taken(acc, pin, step, item, found);
    assert taken.entries == EntriesOf(items + [item], founds + [found], step) by {
      EntriesAppend(items, founds, step, item, found);
    }
    assert taken.pin == PinOf(founds + [found]) by {
      PinAppend(founds, found);
    }
    assert taken.dirty == IsAnyMoved(founds + [found], pin) by {
      MovedAppend(founds, pin, found);
    }
    assert taken.total == Bytes(taken.entries) by {
      if IsEmitted(item.spec, step) {
        BytesAppend(acc.entries, EntryOf(item, found));
      } else {
        assert acc.entries + [] == acc.entries;
      }
    }
  }

  lemma FoundAppend(items: seq<Item>, i: nat, founds: seq<Found>, found: Found, pin: Pin, env: Env, rules: Rules)
    requires i < |items| && AreFound(items[..i], founds, pin, env, rules)
             && Judge(items[i], pin, env, rules) == Ok(found)
    ensures AreFound(items[..i + 1], founds + [found], pin, env, rules)
  {
    var more, all := items[..i + 1], founds + [found];
    forall k | 0 <= k < |more|
      ensures Judge(more[k], pin, env, rules) == Ok(all[k])
    {
      assert k < i ==> more[k] == items[..i][k];
    }
  }

  /** The loops' state once the first `i` documents are through. */
  ghost predicate IsUpTo(items: seq<Item>, i: nat, founds: seq<Found>, pin: Pin, env: Env, rules: Rules,
                         step: Option<string>, acc: Acc)
  {
    i <= |items| && AreFound(items[..i], founds, pin, env, rules) && IsPartial(items[..i], founds, pin, step, acc)
  }

  lemma BlockIsResolution(items: seq<Item>, i: nat, pin: Pin, env: Env, rules: Rules, step: Option<string>,
                          reason: Reason)
    requires i < |items| && IsBlockedAt(items, i, pin, env, rules, reason)
    ensures IsResolution(items, pin, env, rules, step, Blocked(reason))
  {}

  lemma EndIsResolution(items: seq<Item>, founds: seq<Found>, pin: Pin, env: Env, rules: Rules, step: Option<string>,
                        acc: Acc, r: Resolved)
    requires IsUpTo(items, |items|, founds, pin, env, rules, step, acc)
    requires r == if acc.total > rules.budget then Blocked(OverBudget)
                  else Resolved(acc.entries, acc.pin, acc.dirty || acc.pin.Keys != pin.Keys)
    ensures IsResolution(items, pin, env, rules, step, r)
  {
    assert items[..|items|] == items;
    assert r == Resolution(items, founds, pin, rules, step);
  }

  /** `resolve_task_docs`, from the parsed specs on. */
  method ResolveTaskDocs(docs: seq<Spec>, attachments: seq<Spec>, pin: Pin, env: Env, rules: Rules,
                         step: Option<string>)
    returns (r: Resolved)
    ensures docs + attachments != [] ==> IsResolution(Items(docs, attachments), pin, env, rules, step, r)
    ensures docs + attachments == [] ==> r == Resolved([], map[], false)
  {
    if docs == [] && attachments == [] {
      return Resolved([], map[], false);
    }
    var items := Items(docs, attachments);
    ghost var founds: seq<Found> := [];
    var acc, blocked := Acc([], map[], false, 0), None;
    blocked, acc, founds := ResolveSome(items, 0, |docs|, founds, pin, env, rules, step, acc);
    if blocked.Some? {
      return Blocked(blocked.value);
    }
    blocked, acc, founds := ResolveSome(items, |docs|, |items|, founds, pin, env, rules, step, acc);
    if blocked.Some? {
      return Blocked(blocked.value);
    }
    r := if acc.total > rules.budget then Blocked(OverBudget)
         else Resolved(acc.entries, acc.pin, acc.dirty || acc.pin.Keys != pin.Keys);
    EndIsResolution(items, founds, pin, env, rules, step, acc, r);
  }

  /** One of the two loops: over the path documents, or the attachments. */
  method ResolveSome(items: seq<Item>, from: nat, to: nat, ghost before: seq<Found>, pin: Pin, env: Env, rules: Rules,
                     step: Option<string>, was: Acc)
    returns (blocked: Option<Reason>, acc: Acc, ghost founds: seq<Found>)
    requires from <= to <= |items| && IsUpTo(items, from, before, pin, env, rules, step, was)
    ensures blocked.Some? ==> IsResolution(items, pin, env, rules, step, Blocked(blocked.value))
    ensures blocked.None? ==> IsUpTo(items, to, founds, pin, env, rules, step, acc)
  {
    blocked, acc, founds := None, was, before;
    for i := from to to
      invariant blocked.None? && IsUpTo(items, i, founds, pin, env, rules, step, acc)
    {
      blocked, acc, founds := ResolveOne(items, i, founds, items[i], pin, env, rules, step, acc);
      if blocked.Some? {
        return;
      }
    }
  }

  /** The body of both loops. */
  method ResolveOne(ghost items: seq<Item>, ghost i: nat, ghost founds: seq<Found>, item: Item, pin: Pin, env: Env,
                    rules: Rules, step: Option<string>, was: Acc)
    returns (blocked: Option<Reason>, acc: Acc, ghost founds': seq<Found>)
    requires i < |items| && items[i] == item && IsUpTo(items, i, founds, pin, env, rules, step, was)
    ensures blocked.Some? ==> IsResolution(items, pin, env, rules, step, Blocked(blocked.value))
    ensures blocked.None? ==> IsUpTo(items, i + 1, founds', pin, env, rules, step, acc)
  {
    blocked, acc, founds' := None, was, founds;
    var judged := Judge(item, pin, env, rules);
    if judged.Err? {
      assert forall k :: 0 <= k < i ==> items[..i][k] == items[k];
      blocked := Some(judged.error);
      BlockIsResolution(items, i, pin, env, rules, step, judged.error);
      return;
    }
    var found := judged.value;
    PartialStep(items[..i], founds, pin, step, was, item, found);
    FoundAppend(items, i, founds, found, pin, env, rules);
    founds' := founds + [found];
    assert items[..i] + [item] == items[..i + 1];
    if IsMoved(found, pin) {
      acc := acc.(dirty := true);
    }
    acc := acc.(pin := acc.pin[found.key := found.record]);
    if IsEmitted(item.spec, step) {
      acc := acc.(total := acc.total + found.record.bytes, entries := acc.entries + [EntryOf(item, found)]);
    } else {
      assert was.entries + [] == was.entries;
    }
    assert acc == Taken(was, pin, step, item, found);
  }

  // ----- The git-free path --------------------------------------------------

  /** Where the pin records a document; an attachment's name is not checked
      again. */
  function PinKey(item: Item, rules: Rules): Option<string> {
    if item.Document? then rules.normalize(item.spec.path) else Some(ATTACH + Name(item))
  }

  function PinEntry(item: Item, pin: Pin, rules: Rules, step: Option<string>): seq<Entry> {
    var key := PinKey(item, rules);
    if key.None? || key.value !in pin || !IsEmitted(item.spec, step) then []
    else
      var record := pin[key.value];
      [Entry(item, key.value, record, if HasRange(item.spec) && !IsBinary(record.media) then item.spec.range else None)]
  }

  function PinEntries(items: seq<Item>, pin: Pin, rules: Rules, step: Option<string>): seq<Entry> {
    if items == [] then []
    else PinEntries(items[..|items| - 1], pin, rules, step) + PinEntry(items[|items| - 1], pin, rules, step)
  }

  lemma {:induction false} NothingPinned(items: seq<Item>, rules: Rules, step: Option<string>)
    ensures PinEntries(items, map[], rules, step) == []
  {
    if items == [] {
    } else {
      NothingPinned(items[..|items| - 1], rules, step);
    }
  }

  lemma {:induction false} PinEntriesAppend(a: seq<Item>, b: seq<Item>, pin: Pin, rules: Rules, step: Option<string>)
    ensures PinEntries(a + b, pin, rules, step) == PinEntries(a, pin, rules, step) + PinEntries(b, pin, rules, step)
  {
    if b == [] {
      assert a + b == a;
    } else {
      assert (a + b)[..|a + b| - 1] == a + b[..|b| - 1];
      PinEntriesAppend(a, b[..|b| - 1], pin, rules, step);
    }
  }

  lemma PinEntriesNext(items: seq<Item>, item: Item, pin: Pin, rules: Rules, step: Option<string>)
    ensures PinEntries(items + [item], pin, rules, step) ==
            PinEntries(items, pin, rules, step) + PinEntry(item, pin, rules, step)
  {
    assert (items + [item])[..|items|] == items;
  }

  /** `entries_from_pin`, from the parsed specs on. */
  method EntriesFromPin(docs: seq<Spec>, attachments: seq<Spec>, pin: Pin, rules: Rules, step: Option<string>)
    returns (entries: seq<Entry>)
    ensures entries == PinEntries(Items(docs, attachments), pin, rules, step)
  {
    PinEntriesAppend(Documents(docs), Attachments(attachments), pin, rules, step);
    if pin == map[] {
      NothingPinned(Items(docs, attachments), rules, step);
      return [];
    }
    var first := PinnedDocuments(docs, pin, rules, step);
    var rest := PinnedAttachments(attachments, pin, rules, step);
    entries := first + rest;
  }

  method PinnedDocuments(docs: seq<Spec>, pin: Pin, rules: Rules, step: Option<string>) returns (entries: seq<Entry>)
    ensures entries == PinEntries(Documents(docs), pin, rules, step)
  {
    entries := [];
    for i := 0 to |docs|
      invariant entries == PinEntries(Documents(docs[..i]), pin, rules, step)
    {
      assert Documents(docs[..i + 1]) == Documents(docs[..i]) + [Document(docs[i])];
      PinEntriesNext(Documents(docs[..i]), Document(docs[i]), pin, rules, step);
      var path := rules.normalize(docs[i].path);
      if path.None? || path.value !in pin || !IsEmitted(docs[i], step) {
        continue;
      }
      var record := pin[path.value];
      var range := if HasRange(docs[i]) && !IsBinary(record.media) then docs[i].range else None;
      entries := entries + [Entry(Document(docs[i]), path.value, record, range)];
    }
    assert docs[..|docs|] == docs;
  }

  method PinnedAttachments(attachments: seq<Spec>, pin: Pin, rules: Rules, step: Option<string>)
    returns (entries: seq<Entry>)
    ensures entries == PinEntries(Attachments(attachments), pin, rules, step)
  {
    entries := [];
    for i := 0 to |attachments|
      invariant entries == PinEntries(Attachments(attachments[..i]), pin, rules, step)
    {
      assert Attachments(attachments[..i + 1]) == Attachments(attachments[..i]) + [Attachment(attachments[i])];
      PinEntriesNext(Attachments(attachments[..i]), Attachment(attachments[i]), pin, rules, step);
      var key := ATTACH + Name(Attachment(attachments[i]));
      assert PinKey(Attachment(attachments[i]), rules) == Some(key);
      if key !in pin || !IsEmitted(attachments[i], step) {
        continue;
      }
      var record := pin[key];
      var range := if HasRange(attachments[i]) && !IsBinary(record.media) then attachments[i].range else None;
      entries := entries + [Entry(Attachment(attachments[i]), key, record, range)];
    }
    assert attachments[..|attachments|] == attachments;
  }

  // ----- The refinement -----------------------------------------------------

  /** What a document that passed has of its own. */
  lemma FoundIsItsOwn(item: Item, found: Found, pin: Pin, env: Env, rules: Rules)
    requires Judge(item, pin, env, rules) == Ok(found)
    ensures PinKey(item, rules) == Some(found.key)
    ensures HasRange(item.spec) ==> !IsBinary(found.record.media)
    ensures found.record.bytes <= Cap(rules) && IsAllowed(found.record.media, rules.allowed)
    ensures StoreOf(item, env).Some? && found.record.sha in StoreOf(item, env).value.blobs
            && found.record.bytes == StoreOf(item, env).value.blobs[found.record.sha].size
    ensures found.kept <==> found.key in pin && pin[found.key].sha in StoreOf(item, env).value.blobs
    ensures found.kept ==> pin[found.key].sha == found.record.sha && pin[found.key].media == found.record.media
  {}

  lemma JudgeIsLocate(item: Item, found: Found, pin: Pin, env: Env, rules: Rules)
    requires Judge(item, pin, env, rules) == Ok(found)
    ensures Location(item, rules).Some? && StoreOf(item, env).Some?
    ensures Locate(item, Location(item, rules).value, pin, StoreOf(item, env).value, rules) == Ok(found)
    ensures found.key == Key(item, Location(item, rules).value)
  {}

  lemma KeysAreInjective(a: Item, b: Item, at: string, bt: string)
    requires a.Document? == b.Document? && Key(a, at) == Key(b, bt)
    ensures at == bt
  {
    if a.Attachment? {
      assert (ATTACH + at)[|ATTACH|..] == at && (ATTACH + bt)[|ATTACH|..] == bt;
    }
  }

  /** Two documents of one kind with one key are the same blob. */
  lemma OneKeyOneBlob(a: Item, b: Item, found: Found, found': Found, pin: Pin, env: Env, rules: Rules)
    requires Judge(a, pin, env, rules) == Ok(found) && Judge(b, pin, env, rules) == Ok(found')
    requires a.Document? == b.Document? && found.key == found'.key
    ensures found == found'
  {
    JudgeIsLocate(a, found, pin, env, rules);
    JudgeIsLocate(b, found', pin, env, rules);
    KeysAreInjective(a, b, Location(a, rules).value, Location(b, rules).value);
    LocatedTheSame(a, b, Location(a, rules).value, pin, StoreOf(a, env).value, rules);
  }

  lemma LocatedTheSame(a: Item, b: Item, location: string, pin: Pin, store: Store, rules: Rules)
    requires a.Document? == b.Document?
    ensures Locate(a, location, pin, store, rules) == Locate(b, location, pin, store, rules)
  {}

  lemma {:induction false} PinHoldsTheLast(founds: seq<Found>, i: nat) returns (j: nat)
    requires i < |founds|
    ensures i <= j < |founds| && founds[j].key == founds[i].key
    ensures founds[i].key in PinOf(founds) && PinOf(founds)[founds[i].key] == founds[j].record
  {
    var n := |founds| - 1;
    if founds[n].key == founds[i].key {
      j := n;
    } else {
      j := PinHoldsTheLast(founds[..n], i);
    }
  }

  lemma {:induction false} PinHoldsOnlyFound(founds: seq<Found>, key: string)
    requires key in PinOf(founds)
    ensures exists j :: 0 <= j < |founds| && founds[j].key == key && PinOf(founds)[key] == founds[j].record
  {
    var n := |founds| - 1;
    if founds[n].key != key {
      PinHoldsOnlyFound(founds[..n], key);
      var j :| 0 <= j < n && founds[..n][j].key == key && PinOf(founds[..n])[key] == founds[..n][j].record;
      assert founds[j].key == key;
    } else {
      assert PinOf(founds)[key] == founds[n].record;
    }
  }

  /** Every emitted document is pinned as it was found. */
  ghost predicate IsPinnedAsFound(items: seq<Item>, founds: seq<Found>, pin: Pin, step: Option<string>)
    requires |founds| == |items|
  {
    forall i :: 0 <= i < |items| && IsEmitted(items[i].spec, step) ==>
      founds[i].key in pin && pin[founds[i].key] == founds[i].record
  }

  lemma FoundPrefix(items: seq<Item>, founds: seq<Found>, pin: Pin, env: Env, rules: Rules, n: nat)
    requires AreFound(items, founds, pin, env, rules) && n <= |items|
    ensures AreFound(items[..n], founds[..n], pin, env, rules)
  {}

  lemma OneRebuilt(item: Item, found: Found, pin: Pin, env: Env, rules: Rules, persisted: Pin, step: Option<string>)
    requires Judge(item, pin, env, rules) == Ok(found) && found.key in persisted
    ensures var rebuilt := PinEntry(item, persisted, rules, step);
            if IsEmitted(item.spec, step) then
              |rebuilt| == 1 && (rebuilt[0] == EntryOf(item, found) <==> persisted[found.key] == found.record)
            else rebuilt == []
  {
    FoundIsItsOwn(item, found, pin, env, rules);
  }

  /** Rebuilding from a pin gives the resolver's entries exactly when the pin
      holds, for every emitted document, what the resolver found. */
  lemma {:induction false} RebuiltExactly(items: seq<Item>, founds: seq<Found>, pin: Pin, env: Env, rules: Rules,
                                          persisted: Pin, step: Option<string>)
    requires AreFound(items, founds, pin, env, rules) && forall i :: 0 <= i < |items| ==> founds[i].key in persisted
    ensures |PinEntries(items, persisted, rules, step)| == |EntriesOf(items, founds, step)|
    ensures PinEntries(items, persisted, rules, step) == EntriesOf(items, founds, step) <==>
            IsPinnedAsFound(items, founds, persisted, step)
  {
    if items == [] {
    } else {
      var n := |items| - 1;
      FoundPrefix(items, founds, pin, env, rules, n);
      RebuiltExactly(items[..n], founds[..n], pin, env, rules, persisted, step);
      OneRebuilt(items[n], founds[n], pin, env, rules, persisted, step);
      PinnedPrefix(items, founds, persisted, step, n);
      var a, b := PinEntries(items[..n], persisted, rules, step), EntriesOf(items[..n], founds[..n], step);
      var c := PinEntry(items[n], persisted, rules, step);
      var d := if IsEmitted(items[n].spec, step) then [EntryOf(items[n], founds[n])] else [];
      SameParts(a, b, c, d);
    }
  }

  lemma PinnedPrefix(items: seq<Item>, founds: seq<Found>, pin: Pin, step: Option<string>, n: nat)
    requires |founds| == |items| == n + 1
    ensures IsPinnedAsFound(items, founds, pin, step) <==>
            IsPinnedAsFound(items[..n], founds[..n], pin, step)
            && (IsEmitted(items[n].spec, step) ==> founds[n].key in pin && pin[founds[n].key] == founds[n].record)
  {
    if IsPinnedAsFound(items, founds, pin, step) {
      forall i | 0 <= i < n && IsEmitted(items[..n][i].spec, step)
        ensures founds[..n][i].key in pin && pin[founds[..n][i].key] == founds[..n][i].record
      {
        assert items[i] == items[..n][i];
      }
    }
    if IsPinnedAsFound(items[..n], founds[..n], pin, step)
       && (IsEmitted(items[n].spec, step) ==> founds[n].key in pin && pin[founds[n].key] == founds[n].record) {
      forall i | 0 <= i < |items| && IsEmitted(items[i].spec, step)
        ensures founds[i].key in pin && pin[founds[i].key] == founds[i].record
      {
        if i < n {
          assert items[i] == items[..n][i] && founds[i] == founds[..n][i];
        }
      }
    }
  }

  lemma SameParts<T>(a: seq<T>, b: seq<T>, c: seq<T>, d: seq<T>)
    requires |a| == |b| && |c| == |d|
    ensures a + c == b + d <==> a == b && c == d
  {
    if a + c == b + d {
      assert a == (a + c)[..|a|] && c == (a + c)[|a|..];
      assert b == (b + d)[..|b|] && d == (b + d)[|b|..];
    }
  }

  /** An emitted path document and an attachment pinned under one key. */
  predicate IsClash(items: seq<Item>, founds: seq<Found>, step: Option<string>, i: nat, j: nat)
    requires |founds| == |items| && i < |items| && j < |items|
  {
    items[i].Document? && IsEmitted(items[i].spec, step) && items[j].Attachment? && founds[i].key == founds[j].key
  }

  predicate AreClashesEqual(items: seq<Item>, founds: seq<Found>, step: Option<string>)
    requires |founds| == |items|
  {
    forall i, j :: 0 <= i < |items| && 0 <= j < |items| && IsClash(items, founds, step, i, j) ==>
      founds[i].record == founds[j].record
  }

  /** Attachments come after the path documents. */
  predicate AreOrdered(items: seq<Item>) {
    forall i, j :: 0 <= i < j < |items| && items[j].Document? ==> items[i].Document?
  }

  predicate IsSameDocument(items: seq<Item>, founds: seq<Found>, j: nat, k: nat)
    requires |founds| == |items| && j < |items| && k < |items|
  {
    items[j].Document? == items[k].Document? && founds[j].key == founds[k].key
  }

  /** Documents of one kind under one key are one blob. */
  predicate AreConsistent(items: seq<Item>, founds: seq<Found>) {
    |founds| == |items|
    && forall j, k :: 0 <= j < |items| && 0 <= k < |items| && IsSameDocument(items, founds, j, k) ==>
         founds[j].record == founds[k].record
  }

  lemma FoundsAreConsistent(items: seq<Item>, founds: seq<Found>, pin: Pin, env: Env, rules: Rules)
    requires AreFound(items, founds, pin, env, rules)
    ensures AreConsistent(items, founds)
  {
    forall j, k | 0 <= j < |items| && 0 <= k < |items| && IsSameDocument(items, founds, j, k)
      ensures founds[j].record == founds[k].record
    {
      OneKeyOneBlob(items[j], items[k], founds[j], founds[k], pin, env, rules);
    }
  }

  lemma EqualClashesArePinned(items: seq<Item>, founds: seq<Found>, step: Option<string>, i: nat)
    requires AreConsistent(items, founds) && AreOrdered(items) && AreClashesEqual(items, founds, step)
    requires i < |items| && IsEmitted(items[i].spec, step)
    ensures founds[i].key in PinOf(founds) && PinOf(founds)[founds[i].key] == founds[i].record
  {
    var j := PinHoldsTheLast(founds, i);
    if items[i].Document? == items[j].Document? {
      assert IsSameDocument(items, founds, i, j);
    } else {
      assert IsClash(items, founds, step, i, j);
    }
  }

  lemma PinnedClashesAreEqual(items: seq<Item>, founds: seq<Found>, step: Option<string>, i: nat, j: nat)
    requires AreConsistent(items, founds) && AreOrdered(items)
    requires i < |items| && j < |items| && IsClash(items, founds, step, i, j)
    requires founds[i].key in PinOf(founds) && PinOf(founds)[founds[i].key] == founds[i].record
    ensures founds[i].record == founds[j].record
  {
    var k := PinHoldsTheLast(founds, j);
    assert IsSameDocument(items, founds, j, k);
  }

  lemma OwnPinExactly(items: seq<Item>, founds: seq<Found>, pin: Pin, env: Env, rules: Rules, step: Option<string>)
    requires AreFound(items, founds, pin, env, rules) && AreOrdered(items)
    ensures IsPinnedAsFound(items, founds, PinOf(founds), step) <==> AreClashesEqual(items, founds, step)
  {
    FoundsAreConsistent(items, founds, pin, env, rules);
    if AreClashesEqual(items, founds, step) {
      forall i | 0 <= i < |items| && IsEmitted(items[i].spec, step)
        ensures founds[i].key in PinOf(founds) && PinOf(founds)[founds[i].key] == founds[i].record
      {
        EqualClashesArePinned(items, founds, step, i);
      }
    } else {
      var i, j :| 0 <= i < |items| && 0 <= j < |items| && IsClash(items, founds, step, i, j)
                  && founds[i].record != founds[j].record;
      if founds[i].key in PinOf(founds) && PinOf(founds)[founds[i].key] == founds[i].record {
        PinnedClashesAreEqual(items, founds, step, i, j);
      }
    }
  }

  /** On the pin a run computes, the git-free path rebuilds exactly that run's
      entries if and only if no two documents found under one key differ. */
  lemma OwnPinRebuildsExactly(items: seq<Item>, founds: seq<Found>, pin: Pin, env: Env, rules: Rules,
                              step: Option<string>)
    requires AreFound(items, founds, pin, env, rules) && AreOrdered(items)
    ensures PinEntries(items, PinOf(founds), rules, step) == EntriesOf(items, founds, step) <==>
            AreClashesEqual(items, founds, step)
  {
    forall i | 0 <= i < |items|
      ensures founds[i].key in PinOf(founds)
    {
      var _ := PinHoldsTheLast(founds, i);
    }
    RebuiltExactly(items, founds, pin, env, rules, PinOf(founds), step);
    OwnPinExactly(items, founds, pin, env, rules, step);
  }

  /** The pin in the task's file after a run that was not blocked: the dispatch
      writes the new one only when the run calls it dirty. */
  function FilePin(r: Resolved, pin: Pin): Pin
    requires r.Resolved?
  {
    if r.dirty then r.pin else pin
  }

  /** A path document is named like an attachment's pin key. */
  predicate ShareAKey(d: Spec, a: Spec, rules: Rules) {
    rules.normalize(d.path) == Some(ATTACH + LastSegment(a.path))
  }

  function RecordOf(item: Item, pin: Pin, env: Env, rules: Rules): Option<PinRecord> {
    var found := Judge(item, pin, env, rules);
    if found.Ok? then Some(found.value.record) else None
  }

  /** Wherever an emitted path document shares a key with an attachment, the two
      resolve to one blob. */
  predicate AreClashesHarmless(docs: seq<Spec>, attachments: seq<Spec>, pin: Pin, env: Env, rules: Rules,
                               step: Option<string>) {
    forall d, a :: d in docs && a in attachments && IsEmitted(d, step) && ShareAKey(d, a, rules) ==>
      RecordOf(Document(d), pin, env, rules) == RecordOf(Attachment(a), pin, env, rules)
  }

  /** If the pinned blob is still there, the pin holds its size. */
  predicate IsSizeRight(item: Item, pin: Pin, env: Env, rules: Rules) {
    var key, store := PinKey(item, rules), StoreOf(item, env);
    key.Some? && store.Some? && key.value in pin && pin[key.value].sha in store.value.blobs ==>
      pin[key.value].bytes == store.value.blobs[pin[key.value].sha].size
  }

  predicate AreSizesRight(items: seq<Item>, pin: Pin, env: Env, rules: Rules, step: Option<string>) {
    forall i :: 0 <= i < |items| && IsEmitted(items[i].spec, step) ==> IsSizeRight(items[i], pin, env, rules)
  }

  lemma SizeIsRightExactly(item: Item, found: Found, pin: Pin, env: Env, rules: Rules)
    requires Judge(item, pin, env, rules) == Ok(found) && found.key in pin && !IsMoved(found, pin)
    ensures pin[found.key] == found.record <==> IsSizeRight(item, pin, env, rules)
  {
    FoundIsItsOwn(item, found, pin, env, rules);
  }

  lemma OldPinExactly(items: seq<Item>, founds: seq<Found>, pin: Pin, env: Env, rules: Rules, step: Option<string>)
    requires AreFound(items, founds, pin, env, rules) && !IsDirty(founds, pin)
    ensures forall i :: 0 <= i < |items| ==> founds[i].key in pin
    ensures IsPinnedAsFound(items, founds, pin, step) <==> AreSizesRight(items, pin, env, rules, step)
  {
    forall i | 0 <= i < |items|
      ensures founds[i].key in pin
      ensures pin[founds[i].key] == founds[i].record <==> IsSizeRight(items[i], pin, env, rules)
    {
      var _ := PinHoldsTheLast(founds, i);
      assert !IsMoved(founds[i], pin);
      SizeIsRightExactly(items[i], founds[i], pin, env, rules);
    }
  }

  lemma ClashesByInput(docs: seq<Spec>, attachments: seq<Spec>, founds: seq<Found>, pin: Pin, env: Env, rules: Rules,
                       step: Option<string>)
    requires AreFound(Items(docs, attachments), founds, pin, env, rules)
    ensures AreClashesEqual(Items(docs, attachments), founds, step) <==>
            AreClashesHarmless(docs, attachments, pin, env, rules, step)
  {
    var items := Items(docs, attachments);
    forall i | 0 <= i < |items|
      ensures items[i] == if i < |docs| then Document(docs[i]) else Attachment(attachments[i - |docs|])
      ensures PinKey(items[i], rules) == Some(founds[i].key)
      ensures RecordOf(items[i], pin, env, rules) == Some(founds[i].record)
    {
      FoundIsItsOwn(items[i], founds[i], pin, env, rules);
    }
    if AreClashesEqual(items, founds, step) {
      forall d, a | d in docs && a in attachments && IsEmitted(d, step) && ShareAKey(d, a, rules)
        ensures RecordOf(Document(d), pin, env, rules) == RecordOf(Attachment(a), pin, env, rules)
      {
        var i :| 0 <= i < |docs| && docs[i] == d;
        var j :| 0 <= j < |attachments| && attachments[j] == a;
        assert items[|docs| + j] == Attachment(a) && PinKey(items[i], rules) == PinKey(items[|docs| + j], rules);
        assert IsClash(items, founds, step, i, |docs| + j);
      }
    } else {
      var i, j :| 0 <= i < |items| && 0 <= j < |items| && IsClash(items, founds, step, i, j)
                  && founds[i].record != founds[j].record;
      assert docs[i] in docs && attachments[j - |docs|] in attachments;
      assert ShareAKey(docs[i], attachments[j - |docs|], rules);
    }
  }

  /** The git-free path refines the resolver: from the pin in the task's file
      it rebuilds exactly the entries of the run that was not blocked, if and
      only if no emitted path document shares its key with another blob's
      attachment or, where the run found nothing to write, the sizes in the
      file were right. */
  lemma PinRebuildsTheOrderExactly(docs: seq<Spec>, attachments: seq<Spec>, founds: seq<Found>, pin: Pin, env: Env,
                                   rules: Rules, step: Option<string>)
    requires AreFound(Items(docs, attachments), founds, pin, env, rules)
    requires Resolution(Items(docs, attachments), founds, pin, rules, step).Resolved?
    ensures var items, r := Items(docs, attachments), Resolution(Items(docs, attachments), founds, pin, rules, step);
            PinEntries(items, FilePin(r, pin), rules, step) == r.entries <==>
            if r.dirty then AreClashesHarmless(docs, attachments, pin, env, rules, step)
            else AreSizesRight(items, pin, env, rules, step)
  {
    var items := Items(docs, attachments);
    if IsDirty(founds, pin) {
      OwnPinRebuildsExactly(items, founds, pin, env, rules, step);
      ClashesByInput(docs, attachments, founds, pin, env, rules, step);
    } else {
      OldPinExactly(items, founds, pin, env, rules, step);
      RebuiltExactly(items, founds, pin, env, rules, pin, step);
    }
  }

  function AsWritten(path: string): Option<string> {
    Some(path)
  }

  function AlwaysText(path: string, head: string): Option<string> {
    Some("text/plain")
  }

  const PLAIN := Rules(100, 100, ["text/plain"], AsWritten, AlwaysText)

  function Plain(path: string): Spec {
    Spec(path, None, None, [])
  }

  lemma PlainIsAllowed()
    ensures IsAllowed("text/plain", PLAIN.allowed) && !IsBinary("text/plain") && Cap(PLAIN) == 100
  {
    assert PLAIN.allowed[0] == "text/plain";
  }

  const OURS := Store(map["1" := Blob(1, Some(""))], map["attach:x" := "1"])
  const THEIRS := Store(map["2" := Blob(2, Some(""))], map["x" := "2"])
  const APART := Env(Some(OURS), THEIRS)
  const FIRST := PinRecord("1", "text/plain", 1)
  const SECOND := PinRecord("2", "text/plain", 2)
  const CLASH := Items([Plain("attach:x")], [Plain("x")])

  /** A document of the target repository, named like the pin key of an
      attachment that is another blob. */
  lemma ClashIsFound(pin: Pin)
    requires pin == map[] || pin == map["attach:x" := SECOND]
    ensures CLASH == [Document(Plain("attach:x")), Attachment(Plain("x"))]
    ensures AreFound(CLASH, ClashFounds(pin), pin, APART, PLAIN)
  {
    PlainIsAllowed();
    assert LastSegment("x") == "x" && ATTACH + "x" == "attach:x";
  }

  function ClashFounds(pin: Pin): seq<Found> {
    [Found("attach:x", FIRST, false), Found("attach:x", SECOND, pin != map[])]
  }

  lemma ClashIsResolved(pin: Pin)
    requires pin == map[] || pin == map["attach:x" := SECOND]
    ensures |CLASH| == 2
    ensures var r := Resolution(CLASH, ClashFounds(pin), pin, PLAIN, None);
            r.Resolved? && r.dirty && r.pin == map["attach:x" := SECOND]
  {
    var founds := ClashFounds(pin);
    ClashIsFound(pin);
    TwoFounds(CLASH[0], CLASH[1], founds[0], founds[1]);
    assert [CLASH[0], CLASH[1]] == CLASH && [founds[0], founds[1]] == founds;
    assert IsMoved(founds[0], pin);
  }

  /** One document and one attachment share a key, and the order rebuilt from
      the pin hands out the attachment's blob for both. */
  lemma ClashLosesADocument() returns (docs: seq<Spec>, attachments: seq<Spec>, founds: seq<Found>, env: Env)
    ensures var items := Items(docs, attachments);
            && AreFound(items, founds, map[], env, PLAIN)
            && var r := Resolution(items, founds, map[], PLAIN, None);
               r.Resolved? && r.dirty && PinEntries(items, FilePin(r, map[]), PLAIN, None) != r.entries
  {
    docs, attachments, env := [Plain("attach:x")], [Plain("x")], APART;
    founds := ClashFounds(map[]);
    ClashIsFound(map[]);
    ClashIsResolved(map[]);
    assert ShareAKey(docs[0], attachments[0], PLAIN) && docs[0] in docs && attachments[0] in attachments;
    PinRebuildsTheOrderExactly(docs, attachments, founds, map[], env, PLAIN, None);
  }

  /** And resolving it again, with nothing changed anywhere, is dirty again and
      leaves the same pin: the task's file is rewritten by every run. */
  lemma ClashIsDirtyForever() returns (docs: seq<Spec>, attachments: seq<Spec>, founds: seq<Found>, again: seq<Found>,
                                       env: Env)
    ensures var items := Items(docs, attachments);
            && AreFound(items, founds, map[], env, PLAIN) && IsStillReachable(items, founds, env)
            && var r := Resolution(items, founds, map[], PLAIN, None);
               && r.Resolved? && AreFound(items, again, FilePin(r, map[]), env, PLAIN)
               && var r' := Resolution(items, again, FilePin(r, map[]), PLAIN, None);
                  r'.Resolved? && r'.dirty && FilePin(r', FilePin(r, map[])) == FilePin(r, map[])
  {
    docs, attachments, env := [Plain("attach:x")], [Plain("x")], APART;
    var file: Pin := map["attach:x" := SECOND];
    founds, again := ClashFounds(map[]), ClashFounds(file);
    ClashIsFound(map[]);
    ClashIsResolved(map[]);
    ClashIsFound(file);
    ClashIsResolved(file);
    NowIsReachable(CLASH, founds, map[], env, PLAIN);
  }

  lemma OneFound(item: Item, found: Found)
    requires item.spec.steps == []
    ensures EntriesOf([item], [found], None) == [EntryOf(item, found)]
            && Bytes(EntriesOf([item], [found], None)) == found.record.bytes
    ensures PinOf([found]) == map[found.key := found.record]
  {
    assert [] + [item] == [item] && [] + [found] == [found];
    EntriesAppend([], [], None, item, found);
    BytesAppend([], EntryOf(item, found));
    assert [] + [EntryOf(item, found)] == [EntryOf(item, found)];
    PinAppend([], found);
  }

  lemma TwoFounds(a: Item, b: Item, first: Found, second: Found)
    requires a.spec.steps == [] && b.spec.steps == [] && first.key == second.key
    ensures Bytes(EntriesOf([a, b], [first, second], None)) == first.record.bytes + second.record.bytes
    ensures PinOf([first, second]) == map[first.key := second.record]
  {
    OneFound(a, first);
    assert [a] + [b] == [a, b] && [first] + [second] == [first, second];
    EntriesAppend([a], [first], None, b, second);
    BytesAppend([EntryOf(a, first)], EntryOf(b, second));
    PinAppend([first], second);
  }

  /** The pin in the file holds a wrong size for a blob that is still there: the
      run calls it clean, and the order rebuilt from the file says the wrong
      size. */
  lemma WrongSizeIsServed() returns (docs: seq<Spec>, founds: seq<Found>, pin: Pin, env: Env)
    ensures var items := Items(docs, []);
            && AreFound(items, founds, pin, env, PLAIN)
            && var r := Resolution(items, founds, pin, PLAIN, None);
               r.Resolved? && !r.dirty && PinEntries(items, FilePin(r, pin), PLAIN, None) != r.entries
  {
    docs, pin := [Plain("p")], map["p" := PinRecord("1", "text/plain", 7)];
    env := Env(Some(Store(map["1" := Blob(1, None)], map[])), Store(map[], map[]));
    founds := [Found("p", PinRecord("1", "text/plain", 1), true)];
    var items := Items(docs, []);
    PlainIsAllowed();
    assert items == [Document(docs[0])];
    assert Judge(items[0], pin, env, PLAIN) == Ok(founds[0]);
    OneFound(items[0], founds[0]);
    assert [items[0]] == items && [founds[0]] == founds;
    assert !IsSizeRight(items[0], pin, env, PLAIN);
    PinRebuildsTheOrderExactly(docs, [], founds, pin, env, PLAIN, None);
  }

  /** No path document is named like an attachment's pin key: something to
      check before resolving anything. */
  predicate AreKeysApart(docs: seq<Spec>, attachments: seq<Spec>, rules: Rules) {
    forall d, a :: d in docs && a in attachments ==> !ShareAKey(d, a, rules)
  }

  /** Then the rebuilt order is always the resolved one. */
  lemma ApartKeysNeverClash(docs: seq<Spec>, attachments: seq<Spec>, founds: seq<Found>, pin: Pin, env: Env,
                            rules: Rules, step: Option<string>)
    requires AreFound(Items(docs, attachments), founds, pin, env, rules) && AreKeysApart(docs, attachments, rules)
    ensures AreClashesEqual(Items(docs, attachments), founds, step)
  {
    forall d, a | d in docs && a in attachments
      ensures !ShareAKey(d, a, rules)
    {
    }
    ClashesByInput(docs, attachments, founds, pin, env, rules, step);
  }

  // ----- Resolving again ----------------------------------------------------

  /** Later: whatever was pinned is still reachable where it was found, with
      the size it had; the refs may point anywhere. */
  ghost predicate IsStillReachable(items: seq<Item>, founds: seq<Found>, later: Env)
    requires |founds| == |items|
  {
    forall i :: 0 <= i < |items| ==>
      && StoreOf(items[i], later).Some? && founds[i].record.sha in StoreOf(items[i], later).value.blobs
      && StoreOf(items[i], later).value.blobs[founds[i].record.sha].size == founds[i].record.bytes
  }

  function Kept(founds: seq<Found>): seq<Found> {
    seq(|founds|, i requires 0 <= i < |founds| => founds[i].(kept := true))
  }

  /** The pin names, for every document, the blob it was found as. */
  predicate NamesWhatWasFound(pin: Pin, founds: seq<Found>) {
    forall i :: 0 <= i < |founds| ==> NamesTheBlob(pin, founds[i])
  }

  predicate NamesTheBlob(pin: Pin, found: Found) {
    found.key in pin && pin[found.key].sha == found.record.sha && pin[found.key].media == found.record.media
  }

  lemma KeptIsFound(item: Item, found: Found, pin: Pin, env: Env, rules: Rules, persisted: Pin, later: Env)
    requires Judge(item, pin, env, rules) == Ok(found) && NamesTheBlob(persisted, found)
    requires StoreOf(item, later).Some? && found.record.sha in StoreOf(item, later).value.blobs
    requires StoreOf(item, later).value.blobs[found.record.sha].size == found.record.bytes
    ensures Judge(item, persisted, later, rules) == Ok(found.(kept := true))
  {
    JudgeIsLocate(item, found, pin, env, rules);
    FoundIsItsOwn(item, found, pin, env, rules);
  }

  /** Under a pin that names another blob, a document is not found as it was. */
  lemma OtherBlobIsNotKept(item: Item, found: Found, pin: Pin, env: Env, rules: Rules, persisted: Pin, later: Env)
    requires Judge(item, pin, env, rules) == Ok(found)
    requires found.key in persisted && !NamesTheBlob(persisted, found)
    ensures Judge(item, persisted, later, rules) != Ok(found.(kept := true))
  {
    JudgeIsLocate(item, found, pin, env, rules);
  }

  lemma {:induction false} KeptGivesTheSame(items: seq<Item>, founds: seq<Found>, step: Option<string>)
    requires |founds| == |items|
    ensures EntriesOf(items, Kept(founds), step) == EntriesOf(items, founds, step)
    ensures PinOf(Kept(founds)) == PinOf(founds)
  {
    if items == [] {
    } else {
      var n := |items| - 1;
      assert Kept(founds)[..n] == Kept(founds[..n]);
      KeptGivesTheSame(items[..n], founds[..n], step);
    }
  }

  /** The blob a document resolves to, whatever its size. */
  function BlobOf(item: Item, pin: Pin, env: Env, rules: Rules): Option<(string, string)> {
    var found := Judge(item, pin, env, rules);
    if found.Ok? then Some((found.value.record.sha, found.value.record.media)) else None
  }

  /** Wherever a path document, emitted or not, shares a key with an attachment,
      the two resolve to one blob. */
  predicate AreKeysOfOneBlob(docs: seq<Spec>, attachments: seq<Spec>, pin: Pin, env: Env, rules: Rules) {
    forall d, a :: d in docs && a in attachments && ShareAKey(d, a, rules) ==>
      BlobOf(Document(d), pin, env, rules) == BlobOf(Attachment(a), pin, env, rules)
  }

  /** A clean run kept every blob the pin named. */
  lemma CleanRunsKeepThePin(items: seq<Item>, founds: seq<Found>, pin: Pin, env: Env, rules: Rules)
    requires AreFound(items, founds, pin, env, rules) && !IsDirty(founds, pin)
    ensures NamesWhatWasFound(pin, founds)
  {
    forall i | 0 <= i < |founds|
      ensures NamesTheBlob(pin, founds[i])
    {
      var _ := PinHoldsTheLast(founds, i);
      assert !IsMoved(founds[i], pin);
      FoundIsItsOwn(items[i], founds[i], pin, env, rules);
    }
  }

  lemma CleanKeysAreOfOneBlob(items: seq<Item>, founds: seq<Found>, pin: Pin, env: Env, rules: Rules, i: nat, j: nat)
    requires AreFound(items, founds, pin, env, rules) && !IsDirty(founds, pin)
    requires i < |founds| && j < |founds| && founds[i].key == founds[j].key
    ensures AreOneBlob(founds[i], founds[j])
  {
    CleanRunsKeepThePin(items, founds, pin, env, rules);
    assert NamesTheBlob(pin, founds[i]) && NamesTheBlob(pin, founds[j]);
  }

  lemma ItemsAt(docs: seq<Spec>, attachments: seq<Spec>, i: nat)
    requires i < |docs| + |attachments|
    ensures Items(docs, attachments)[i] == if i < |docs| then Document(docs[i]) else Attachment(attachments[i - |docs|])
  {}

  /** A document and an attachment under one key, and the blobs they were found
      as. */
  lemma ClashingPair(docs: seq<Spec>, attachments: seq<Spec>, founds: seq<Found>, pin: Pin, env: Env, rules: Rules,
                     i: nat, j: nat)
    requires AreFound(Items(docs, attachments), founds, pin, env, rules) && i < |docs| && j < |attachments|
    ensures ShareAKey(docs[i], attachments[j], rules) <==> founds[i].key == founds[|docs| + j].key
    ensures BlobOf(Document(docs[i]), pin, env, rules) == Some((founds[i].record.sha, founds[i].record.media))
    ensures var there := founds[|docs| + j].record;
            BlobOf(Attachment(attachments[j]), pin, env, rules) == Some((there.sha, there.media))
  {
    var items := Items(docs, attachments);
    ItemsAt(docs, attachments, i);
    ItemsAt(docs, attachments, |docs| + j);
    FoundIsItsOwn(items[i], founds[i], pin, env, rules);
    FoundIsItsOwn(items[|docs| + j], founds[|docs| + j], pin, env, rules);
  }

  predicate AreOneBlob(a: Found, b: Found) {
    a.record.sha == b.record.sha && a.record.media == b.record.media
  }

  lemma LastIsOneBlob(docs: seq<Spec>, attachments: seq<Spec>, founds: seq<Found>, pin: Pin, env: Env, rules: Rules,
                      i: nat, k: nat)
    requires AreFound(Items(docs, attachments), founds, pin, env, rules) && i <= k < |founds|
    requires AreKeysOfOneBlob(docs, attachments, pin, env, rules) && founds[i].key == founds[k].key
    ensures AreOneBlob(founds[i], founds[k])
  {
    var items := Items(docs, attachments);
    ItemsAt(docs, attachments, i);
    ItemsAt(docs, attachments, k);
    if i < |docs| <= k {
      ClashingPair(docs, attachments, founds, pin, env, rules, i, k - |docs|);
      assert docs[i] in docs && attachments[k - |docs|] in attachments;
    } else {
      OneKeyOneBlob(items[i], items[k], founds[i], founds[k], pin, env, rules);
    }
  }

  /** The run's own pin names what it found exactly when no key stands for two
      blobs. */
  lemma OwnPinNamesExactly(docs: seq<Spec>, attachments: seq<Spec>, founds: seq<Found>, pin: Pin, env: Env,
                           rules: Rules)
    requires AreFound(Items(docs, attachments), founds, pin, env, rules)
    ensures NamesWhatWasFound(PinOf(founds), founds) <==> AreKeysOfOneBlob(docs, attachments, pin, env, rules)
  {
    if AreKeysOfOneBlob(docs, attachments, pin, env, rules) {
      forall i | 0 <= i < |founds|
        ensures NamesTheBlob(PinOf(founds), founds[i])
      {
        var k := PinHoldsTheLast(founds, i);
        LastIsOneBlob(docs, attachments, founds, pin, env, rules, i, k);
      }
    }
    if NamesWhatWasFound(PinOf(founds), founds) {
      NamedKeysAreOfOneBlob(docs, attachments, founds, pin, env, rules);
    }
  }

  lemma NamedKeysAreOfOneBlob(docs: seq<Spec>, attachments: seq<Spec>, founds: seq<Found>, pin: Pin, env: Env,
                              rules: Rules)
    requires AreFound(Items(docs, attachments), founds, pin, env, rules) && NamesWhatWasFound(PinOf(founds), founds)
    ensures AreKeysOfOneBlob(docs, attachments, pin, env, rules)
  {
    forall d, a | d in docs && a in attachments && ShareAKey(d, a, rules)
      ensures BlobOf(Document(d), pin, env, rules) == BlobOf(Attachment(a), pin, env, rules)
    {
      var i :| 0 <= i < |docs| && docs[i] == d;
      var j :| 0 <= j < |attachments| && attachments[j] == a;
      ClashingPair(docs, attachments, founds, pin, env, rules, i, j);
      assert NamesTheBlob(PinOf(founds), founds[i]) && NamesTheBlob(PinOf(founds), founds[|docs| + j]);
    }
  }

  /** The pin a run leaves in the task's file names what it found, exactly when
      no key stands for two blobs. */
  lemma FilePinNamesExactly(docs: seq<Spec>, attachments: seq<Spec>, founds: seq<Found>, pin: Pin, env: Env,
                            rules: Rules)
    requires AreFound(Items(docs, attachments), founds, pin, env, rules)
    ensures NamesWhatWasFound(if IsDirty(founds, pin) then PinOf(founds) else pin, founds) <==>
            AreKeysOfOneBlob(docs, attachments, pin, env, rules)
  {
    OwnPinNamesExactly(docs, attachments, founds, pin, env, rules);
    if !IsDirty(founds, pin) {
      var items := Items(docs, attachments);
      CleanRunsKeepThePin(items, founds, pin, env, rules);
      forall i | 0 <= i < |founds|
        ensures NamesTheBlob(PinOf(founds), founds[i])
      {
        var k := PinHoldsTheLast(founds, i);
        CleanKeysAreOfOneBlob(items, founds, pin, env, rules, i, k);
      }
    }
  }

  /** A later run, from the pin in the task's file, finds every document as it
      was: the same entries and the same pin, and not dirty. */
  ghost predicate IsRepeated(items: seq<Item>, founds: seq<Found>, pin: Pin, rules: Rules, step: Option<string>,
                             later: Env)
    requires |founds| == |items| && Resolution(items, founds, pin, rules, step).Resolved?
  {
    var r := Resolution(items, founds, pin, rules, step);
    && AreFound(items, Kept(founds), FilePin(r, pin), later, rules)
    && Resolution(items, Kept(founds), FilePin(r, pin), rules, step) == r.(dirty := false)
  }

  /** Re-resolving is a fixpoint as long as the pinned blobs are reachable,
      whatever the base ref has become, if and only if no path document shares
      its key with another blob's attachment. */
  lemma ResolvingAgainIsAFixpointExactly(docs: seq<Spec>, attachments: seq<Spec>, founds: seq<Found>, pin: Pin,
                                         env: Env, rules: Rules, step: Option<string>)
    requires AreFound(Items(docs, attachments), founds, pin, env, rules)
    requires Resolution(Items(docs, attachments), founds, pin, rules, step).Resolved?
    ensures (forall later | IsStillReachable(Items(docs, attachments), founds, later) ::
               IsRepeated(Items(docs, attachments), founds, pin, rules, step, later)) <==>
            AreKeysOfOneBlob(docs, attachments, pin, env, rules)
  {
    var items := Items(docs, attachments);
    FilePinNamesExactly(docs, attachments, founds, pin, env, rules);
    if AreKeysOfOneBlob(docs, attachments, pin, env, rules) {
      forall later | IsStillReachable(items, founds, later)
        ensures IsRepeated(items, founds, pin, rules, step, later)
      {
        NamedIsRepeated(items, founds, pin, env, rules, step, later);
      }
    } else {
      NowIsReachable(items, founds, pin, env, rules);
      UnnamedIsNotRepeated(items, founds, pin, env, rules, step, env);
    }
  }

  lemma NowIsReachable(items: seq<Item>, founds: seq<Found>, pin: Pin, env: Env, rules: Rules)
    requires AreFound(items, founds, pin, env, rules)
    ensures IsStillReachable(items, founds, env)
  {
    forall i | 0 <= i < |items|
      ensures StoreOf(items[i], env).Some? && founds[i].record.sha in StoreOf(items[i], env).value.blobs
      ensures StoreOf(items[i], env).value.blobs[founds[i].record.sha].size == founds[i].record.bytes
    {
      FoundIsItsOwn(items[i], founds[i], pin, env, rules);
    }
  }

  lemma NamedIsRepeated(items: seq<Item>, founds: seq<Found>, pin: Pin, env: Env, rules: Rules, step: Option<string>,
                        later: Env)
    requires AreFound(items, founds, pin, env, rules) && Resolution(items, founds, pin, rules, step).Resolved?
    requires NamesWhatWasFound(FilePin(Resolution(items, founds, pin, rules, step), pin), founds)
    requires IsStillReachable(items, founds, later)
    ensures IsRepeated(items, founds, pin, rules, step, later)
  {
    var file := FilePin(Resolution(items, founds, pin, rules, step), pin);
    NamedAreFoundAgain(items, founds, pin, env, rules, file, later);
    KeptGivesTheSame(items, founds, step);
    KeptIsClean(founds, file);
  }

  lemma KeptIsClean(founds: seq<Found>, file: Pin)
    requires PinOf(Kept(founds)).Keys == file.Keys
    ensures !IsDirty(Kept(founds), file)
  {}

  lemma NamedAreFoundAgain(items: seq<Item>, founds: seq<Found>, pin: Pin, env: Env, rules: Rules, file: Pin,
                           later: Env)
    requires AreFound(items, founds, pin, env, rules) && NamesWhatWasFound(file, founds)
    requires IsStillReachable(items, founds, later)
    ensures AreFound(items, Kept(founds), file, later, rules)
  {
    forall i | 0 <= i < |items|
      ensures Judge(items[i], file, later, rules) == Ok(Kept(founds)[i])
    {
      assert NamesTheBlob(file, founds[i]);
      KeptIsFound(items[i], founds[i], pin, env, rules, file, later);
    }
  }

  lemma UnnamedIsNotRepeated(items: seq<Item>, founds: seq<Found>, pin: Pin, env: Env, rules: Rules,
                             step: Option<string>, later: Env)
    requires AreFound(items, founds, pin, env, rules) && Resolution(items, founds, pin, rules, step).Resolved?
    requires !NamesWhatWasFound(FilePin(Resolution(items, founds, pin, rules, step), pin), founds)
    ensures !IsRepeated(items, founds, pin, rules, step, later)
  {
    var file := FilePin(Resolution(items, founds, pin, rules, step), pin);
    var i :| 0 <= i < |founds| && !NamesTheBlob(file, founds[i]);
    var _ := PinHoldsTheLast(founds, i);
    OtherBlobIsNotKept(items[i], founds[i], pin, env, rules, file, later);
    assert Kept(founds)[i] == founds[i].(kept := true);
  }

  lemma {:induction false} SameEntriesSameRecords(items: seq<Item>, founds: seq<Found>, founds': seq<Found>,
                                                  step: Option<string>, i: nat)
    requires |founds| == |items| == |founds'| && i < |items| && IsEmitted(items[i].spec, step)
    requires EntriesOf(items, founds, step) == EntriesOf(items, founds', step)
    ensures founds[i].record == founds'[i].record
  {
    var n := |items| - 1;
    EntriesHaveOneLength(items[..n], founds[..n], founds'[..n], step);
    var a, b := EntriesOf(items[..n], founds[..n], step), EntriesOf(items[..n], founds'[..n], step);
    var c := if IsEmitted(items[n].spec, step) then [EntryOf(items[n], founds[n])] else [];
    var d := if IsEmitted(items[n].spec, step) then [EntryOf(items[n], founds'[n])] else [];
    SameParts(a, b, c, d);
    if i < n {
      SameEntriesSameRecords(items[..n], founds[..n], founds'[..n], step, i);
    } else {
      assert c[0] == d[0];
    }
  }

  lemma {:induction false} EntriesHaveOneLength(items: seq<Item>, founds: seq<Found>, founds': seq<Found>,
                                                step: Option<string>)
    requires |founds| == |items| == |founds'|
    ensures |EntriesOf(items, founds, step)| == |EntriesOf(items, founds', step)|
  {
    if items == [] {
    } else {
      var n := |items| - 1;
      EntriesHaveOneLength(items[..n], founds[..n], founds'[..n], step);
    }
  }

  /** Where an emitted document is the one that clashes, no later run ever gives
      the same result without calling it dirty. */
  lemma ClashesNeverSettle(docs: seq<Spec>, attachments: seq<Spec>, founds: seq<Found>, pin: Pin, env: Env,
                           rules: Rules, step: Option<string>, d: Spec, a: Spec, later: Env, again: Resolved)
    requires AreFound(Items(docs, attachments), founds, pin, env, rules)
    requires d in docs && a in attachments && ShareAKey(d, a, rules) && IsEmitted(d, step)
    requires BlobOf(Document(d), pin, env, rules) != BlobOf(Attachment(a), pin, env, rules)
    requires var r := Resolution(Items(docs, attachments), founds, pin, rules, step);
             r.Resolved? && IsResolution(Items(docs, attachments), FilePin(r, pin), later, rules, step, again)
    ensures again != Resolution(Items(docs, attachments), founds, pin, rules, step).(dirty := false)
  {
    var items, r := Items(docs, attachments), Resolution(Items(docs, attachments), founds, pin, rules, step);
    var file := FilePin(r, pin);
    if again == r.(dirty := false) {
      var i :| 0 <= i < |docs| && docs[i] == d;
      var j :| 0 <= j < |attachments| && attachments[j] == a;
      ClashIsMisnamed(docs, attachments, founds, pin, env, rules, i, j);
      var founds' :| AreFound(items, founds', file, later, rules)
                     && again == Resolution(items, founds', file, rules, step);
      ItemsAt(docs, attachments, i);
      SameEntriesSameRecords(items, founds, founds', step, i);
      MisnamedIsMovedOrAnother(items[i], founds[i], founds'[i], pin, env, file, later, rules);
    }
  }

  lemma MisnamedIsMovedOrAnother(item: Item, found: Found, found': Found, pin: Pin, env: Env, file: Pin, later: Env,
                                 rules: Rules)
    requires Judge(item, pin, env, rules) == Ok(found) && Judge(item, file, later, rules) == Ok(found')
    requires found.key in file && !NamesTheBlob(file, found)
    ensures found'.record != found.record || IsMoved(found', file)
  {
    JudgeIsLocate(item, found, pin, env, rules);
    JudgeIsLocate(item, found', file, later, rules);
    FoundIsItsOwn(item, found', file, later, rules);
  }

  /** The pin in the file names the attachment's blob. */
  lemma ClashIsMisnamed(docs: seq<Spec>, attachments: seq<Spec>, founds: seq<Found>, pin: Pin, env: Env, rules: Rules,
                        i: nat, j: nat)
    requires AreFound(Items(docs, attachments), founds, pin, env, rules) && i < |docs| && j < |attachments|
    requires ShareAKey(docs[i], attachments[j], rules)
    requires BlobOf(Document(docs[i]), pin, env, rules) != BlobOf(Attachment(attachments[j]), pin, env, rules)
    ensures IsDirty(founds, pin) && founds[i].key in PinOf(founds) && !NamesTheBlob(PinOf(founds), founds[i])
  {
    var items := Items(docs, attachments);
    ClashingPair(docs, attachments, founds, pin, env, rules, i, j);
    if !IsDirty(founds, pin) {
      CleanKeysAreOfOneBlob(items, founds, pin, env, rules, i, |docs| + j);
    }
    var k := PinHoldsTheLast(founds, |docs| + j);
    ItemsAt(docs, attachments, |docs| + j);
    ItemsAt(docs, attachments, k);
    OneKeyOneBlob(items[k], items[|docs| + j], founds[k], founds[|docs| + j], pin, env, rules);
  }

  lemma FoundsAreUnique(items: seq<Item>, founds: seq<Found>, founds': seq<Found>, pin: Pin, env: Env, rules: Rules)
    requires AreFound(items, founds, pin, env, rules) && AreFound(items, founds', pin, env, rules)
    ensures founds == founds'
  {
    forall i | 0 <= i < |items|
      ensures founds[i] == founds'[i]
    {
      assert Judge(items[i], pin, env, rules) == Ok(founds[i]);
    }
  }

  /** The pin and its dirtiness do not depend on the workflow step. */
  lemma PinIsTheSameForEveryStep(items: seq<Item>, pin: Pin, env: Env, rules: Rules, step: Option<string>,
                                 other: Option<string>, r: Resolved, r': Resolved)
    requires IsResolution(items, pin, env, rules, step, r) && IsResolution(items, pin, env, rules, other, r')
    requires r.Resolved? && r'.Resolved?
    ensures r.pin == r'.pin && r.dirty == r'.dirty
  {
    var founds :| AreFound(items, founds, pin, env, rules) && r == Resolution(items, founds, pin, rules, step);
    var founds' :| AreFound(items, founds', pin, env, rules) && r' == Resolution(items, founds', pin, rules, other);
    FoundsAreUnique(items, founds, founds', pin, env, rules);
  }

  /** Some attachment is pinned under the document's key, and so over it. */
  predicate IsShadowed(d: Spec, attachments: seq<Spec>, rules: Rules) {
    exists a | a in attachments :: ShareAKey(d, a, rules)
  }

  /** The sizes the pin holds are right, for the document each was written for
      last. */
  predicate AreLastSizesRight(docs: seq<Spec>, attachments: seq<Spec>, pin: Pin, env: Env, rules: Rules) {
    && (forall a :: a in attachments ==> IsSizeRight(Attachment(a), pin, env, rules))
    && forall d :: d in docs && !IsShadowed(d, attachments, rules) ==> IsSizeRight(Document(d), pin, env, rules)
  }

  lemma LastIsRight(docs: seq<Spec>, attachments: seq<Spec>, founds: seq<Found>, pin: Pin, env: Env, rules: Rules,
                    i: nat)
    requires AreFound(Items(docs, attachments), founds, pin, env, rules) && !IsDirty(founds, pin) && i < |founds|
    requires i < |docs| ==> !IsShadowed(docs[i], attachments, rules)
    requires PinOf(founds) == pin
    ensures IsSizeRight(if i < |docs| then Document(docs[i]) else Attachment(attachments[i - |docs|]), pin, env, rules)
  {
    ItemsAt(docs, attachments, i);
    LastIsRightExactly(docs, attachments, founds, pin, env, rules, i);
  }

  lemma UnchangedMeansRight(docs: seq<Spec>, attachments: seq<Spec>, founds: seq<Found>, pin: Pin, env: Env,
                            rules: Rules)
    requires AreFound(Items(docs, attachments), founds, pin, env, rules) && !IsDirty(founds, pin)
    requires PinOf(founds) == pin
    ensures AreLastSizesRight(docs, attachments, pin, env, rules)
  {
    forall a | a in attachments
      ensures IsSizeRight(Attachment(a), pin, env, rules)
    {
      var j :| 0 <= j < |attachments| && attachments[j] == a;
      LastIsRight(docs, attachments, founds, pin, env, rules, |docs| + j);
    }
    forall d | d in docs && !IsShadowed(d, attachments, rules)
      ensures IsSizeRight(Document(d), pin, env, rules)
    {
      var i :| 0 <= i < |docs| && docs[i] == d;
      LastIsRight(docs, attachments, founds, pin, env, rules, i);
    }
  }

  lemma RightMeansUnchanged(docs: seq<Spec>, attachments: seq<Spec>, founds: seq<Found>, pin: Pin, env: Env,
                            rules: Rules)
    requires AreFound(Items(docs, attachments), founds, pin, env, rules) && !IsDirty(founds, pin)
    requires AreLastSizesRight(docs, attachments, pin, env, rules)
    ensures PinOf(founds) == pin
  {
    forall key | key in PinOf(founds)
      ensures key in pin && PinOf(founds)[key] == pin[key]
    {
      PinHoldsOnlyFound(founds, key);
      var i :| 0 <= i < |founds| && founds[i].key == key;
      PinnedAsBefore(docs, attachments, founds, pin, env, rules, i);
    }
  }

  /** A run that calls the pin clean returns the old pin exactly when the
      sizes in it were right: a wrong size is corrected without being
      reported. */
  lemma CleanMeansUnchangedExactly(docs: seq<Spec>, attachments: seq<Spec>, founds: seq<Found>, pin: Pin, env: Env,
                                   rules: Rules)
    requires AreFound(Items(docs, attachments), founds, pin, env, rules) && !IsDirty(founds, pin)
    ensures PinOf(founds) == pin <==> AreLastSizesRight(docs, attachments, pin, env, rules)
  {
    if PinOf(founds) == pin {
      UnchangedMeansRight(docs, attachments, founds, pin, env, rules);
    } else if AreLastSizesRight(docs, attachments, pin, env, rules) {
      RightMeansUnchanged(docs, attachments, founds, pin, env, rules);
    }
  }

  lemma PinnedAsBefore(docs: seq<Spec>, attachments: seq<Spec>, founds: seq<Found>, pin: Pin, env: Env, rules: Rules,
                       i: nat)
    requires AreFound(Items(docs, attachments), founds, pin, env, rules) && !IsDirty(founds, pin) && i < |founds|
    requires AreLastSizesRight(docs, attachments, pin, env, rules)
    ensures founds[i].key in pin && founds[i].key in PinOf(founds)
            && PinOf(founds)[founds[i].key] == pin[founds[i].key]
  {
    var m: nat := i;
    if i < |docs| && IsShadowed(docs[i], attachments, rules) {
      var a :| a in attachments && ShareAKey(docs[i], a, rules);
      var j :| 0 <= j < |attachments| && attachments[j] == a;
      ClashingPair(docs, attachments, founds, pin, env, rules, i, j);
      m := |docs| + j;
    }
    LastIsRightExactly(docs, attachments, founds, pin, env, rules, m);
    ItemsAt(docs, attachments, m);
    assert m < |docs| ==> docs[m] in docs;
    assert m >= |docs| ==> attachments[m - |docs|] in attachments;
  }

  /** Whether the pin a clean run computes holds what the old one does, at the
      key of an attachment or of a document in nobody's shadow. */
  lemma LastIsRightExactly(docs: seq<Spec>, attachments: seq<Spec>, founds: seq<Found>, pin: Pin, env: Env,
                           rules: Rules, i: nat)
    requires AreFound(Items(docs, attachments), founds, pin, env, rules) && !IsDirty(founds, pin) && i < |founds|
    requires i < |docs| ==> !IsShadowed(docs[i], attachments, rules)
    ensures founds[i].key in pin && founds[i].key in PinOf(founds)
    ensures PinOf(founds)[founds[i].key] == pin[founds[i].key] <==>
            IsSizeRight(Items(docs, attachments)[i], pin, env, rules)
  {
    var items := Items(docs, attachments);
    CleanRunsKeepThePin(items, founds, pin, env, rules);
    assert NamesTheBlob(pin, founds[i]);
    SizeIsRightExactly(items[i], founds[i], pin, env, rules);
    FoundsAreConsistent(items, founds, pin, env, rules);
    var k := PinHoldsTheLast(founds, i);
    ItemsAt(docs, attachments, i);
    ItemsAt(docs, attachments, k);
    if i < |docs| <= k {
      assert attachments[k - |docs|] in attachments;
      ClashingPair(docs, attachments, founds, pin, env, rules, i, k - |docs|);
    }
    assert IsSameDocument(items, founds, i, k);
  }

  // ----- Which documents an order hands over --------------------------------

  /** The document goes to this step: none is named, or the document lists no
      steps, or it lists this one. */
  predicate IsMeantFor(spec: Spec, step: Option<string>) {
    step == None || step == Some("") || spec.steps == [] || exists s :: s in spec.steps && step == Some(s)
  }

  /** The entry is what was found for the document, with its range if one is
      written. */
  predicate IsEntryFor(e: Entry, item: Item, found: Found) {
    && e.item == item && e.key == found.key && e.record == found.record
    && (item.spec.range.Some? && item.spec.range.value != "" ==> e.range == item.spec.range)
    && (item.spec.range.None? || item.spec.range.value == "" ==> e.range.None?)
  }

  /** The order of the resolver holds, in their order, exactly the documents
      for its step. */
  lemma {:induction false} OrderHoldsExactly(items: seq<Item>, founds: seq<Found>, step: Option<string>,
                                             p: nat -> bool)
    requires |founds| == |items| && forall i: nat :: i < |items| ==> p(i) == IsMeantFor(items[i].spec, step)
    ensures |Places(|items|, p)| == |EntriesOf(items, founds, step)|
    ensures forall k :: 0 <= k < |Places(|items|, p)| ==>
              var i := Places(|items|, p)[k];
              i < |items| && IsEntryFor(EntriesOf(items, founds, step)[k], items[i], founds[i])
  {
    if items == [] {
    } else {
      OrderHoldsExactly(items[..|items| - 1], founds[..|items| - 1], step, p);
    }
  }

  /** And the git-free order exactly those of them that the pin records. */
  lemma {:induction false} PinnedOrderHoldsExactly(items: seq<Item>, pin: Pin, rules: Rules, step: Option<string>,
                                                   p: nat -> bool)
    requires forall i: nat :: i < |items| ==>
               p(i) == IsPinnedFor(items[i], pin, rules, step)
    ensures |Places(|items|, p)| == |PinEntries(items, pin, rules, step)|
    ensures forall k :: 0 <= k < |Places(|items|, p)| ==>
              var i := Places(|items|, p)[k];
              i < |items| && IsPinnedEntry(PinEntries(items, pin, rules, step)[k], items[i], pin, rules)
  {
    if items == [] {
    } else {
      var n := |items| - 1;
      PinnedOrderHoldsExactly(items[..n], pin, rules, step, p);
      var before := PinEntries(items[..n], pin, rules, step);
      assert PinEntries(items, pin, rules, step) == before + PinEntry(items[n], pin, rules, step);
      assert p(n) == (PinEntry(items[n], pin, rules, step) != []);
    }
  }

  predicate IsPinnedFor(item: Item, pin: Pin, rules: Rules, step: Option<string>) {
    IsMeantFor(item.spec, step) && IsRecorded(item, pin, rules)
  }

  predicate IsRecorded(item: Item, pin: Pin, rules: Rules) {
    PinKey(item, rules).Some? && PinKey(item, rules).value in pin
  }

  /** The entry says what the pin says of the document, with its range if one is
      written and the document is text. */
  predicate IsPinnedEntry(e: Entry, item: Item, pin: Pin, rules: Rules) {
    && IsRecorded(item, pin, rules)
    && var key := PinKey(item, rules).value;
       && e.item == item && e.key == key && e.record == pin[key]
       && (item.spec.range.Some? && item.spec.range.value != "" && !IsBinary(pin[key].media) ==>
             e.range == item.spec.range)
       && (item.spec.range.None? || item.spec.range.value == "" || IsBinary(pin[key].media) ==> e.range.None?)
  }

  // ----- What blocks a document ---------------------------------------------

  /** A document is pinned under its own path, an attachment under its name. */
  lemma KeysExactly(item: Item, rules: Rules)
    ensures item.Document? ==> PinKey(item, rules) == rules.normalize(item.spec.path)
    ensures item.Attachment? ==> PinKey(item, rules) == Some("attach:" + Name(item))
    ensures '/' !in Name(item)
    ensures Name(item) == item.spec.path || exists folder :: item.spec.path == folder + "/" + Name(item)
  {
    LastSegmentIsAfterTheSlash(item.spec.path);
  }

  lemma {:induction false} LastSegmentIsAfterTheSlash(path: string)
    ensures '/' !in LastSegment(path)
    ensures LastSegment(path) == path || exists folder :: path == folder + "/" + LastSegment(path)
  {
    if '/' !in path {
    } else {
      var init, last := path[..|path| - 1], path[|path| - 1];
      assert path == init + [last];
      if last == '/' {
        assert path == init + "/" + "";
      } else {
        LastSegmentIsAfterTheSlash(init);
        assert '/' in init;
        assert LastSegment(init) != init;
        var folder :| init == folder + "/" + LastSegment(init);
        assert path == folder + "/" + (LastSegment(init) + [last]);
      }
    }
  }

  /** Of a document that is not pinned, or whose pinned blob is gone, the blob
      at the ref is taken, and its type is sniffed; what it is found as is
      allowed by name, or by a pattern for its kind. */
  lemma FoundAtTheRef(item: Item, found: Found, pin: Pin, env: Env, rules: Rules)
    requires Judge(item, pin, env, rules) == Ok(found)
    ensures var store := if item.Document? then env.target.value else env.tasks;
            var path := if item.Document? then rules.normalize(item.spec.path) else Some(Name(item));
            && path.Some? && (item.Document? ==> env.target.Some?)
            && (!found.kept ==>
                  && path.value in store.at && store.at[path.value] == found.record.sha
                  && found.record.sha in store.blobs && store.blobs[found.record.sha].head.Some?
                  && rules.sniff(path.value, store.blobs[found.record.sha].head.value) == Some(found.record.media))
            && (found.record.media in rules.allowed
                || exists kind :: kind + "/*" in rules.allowed && kind + "/" <= found.record.media)
  {
    FoundIsItsOwn(item, found, pin, env, rules);
    AllowedExactly(found.record.media, rules.allowed);
  }

  lemma AllowedExactly(media: string, allowed: seq<string>)
    ensures IsAllowed(media, allowed) <==>
            media in allowed || exists kind :: kind + "/*" in allowed && kind + "/" <= media
  {
    if kind :| kind + "/*" in allowed && kind + "/" <= media {
      var i :| 0 <= i < |allowed| && allowed[i] == kind + "/*";
      assert allowed[i][|allowed[i]| - 2..] == "/*" && allowed[i][..|allowed[i]| - 1] == kind + "/";
    }
    if i :| 0 <= i < |allowed| && |allowed[i]| >= 2 && allowed[i][|allowed[i]| - 2..] == "/*"
            && allowed[i][..|allowed[i]| - 1] <= media {
      var kind := allowed[i][..|allowed[i]| - 2];
      assert allowed[i] == kind + "/*" && allowed[i][..|allowed[i]| - 1] == kind + "/";
    }
  }

  /** What is text: the kinds named so, and the two structured ones. */
  lemma TextExactly(media: string)
    ensures !IsBinary(media) <==>
            media == "application/json" || media == "application/yaml" || exists kind :: media == "text/" + kind
  {
    if "text/" <= media {
      assert media == "text/" + media[5..];
    }
  }

  /** Why a document blocks the task: each reason exactly in its case, in this
      order. `bytes` and `media` are of the blob it would be found as. */
  lemma BlockedExactly(item: Item, pin: Pin, env: Env, rules: Rules)
    ensures var path := if item.Document? then rules.normalize(item.spec.path) else
                        if rules.normalize(Name(item)).Some? then Some(Name(item)) else None;
            var reason := Judge(item, pin, env, rules);
            if path.None? then reason == Err(OutsideRepo)
            else if item.Document? && env.target.None? then reason == Err(NoTargetRepo)
            else
              var store := if item.Document? then env.target.value else env.tasks;
              var key := if item.Document? then path.value else "attach:" + path.value;
              var isKept := key in pin && pin[key].sha in store.blobs;
              var isThere := path.value in store.at && store.at[path.value] in store.blobs
                             && store.blobs[store.at[path.value]].head.Some?;
              if !isKept && !isThere then reason == Err(NotFound)
              else
                var sha := if isKept then pin[key].sha else store.at[path.value];
                var media := if isKept then Some(pin[key].media)
                             else rules.sniff(path.value, store.blobs[sha].head.value);
                if media.None? then reason == Err(Mislabelled)
                else if !(media.value in rules.allowed
                          || exists kind :: kind + "/*" in rules.allowed && kind + "/" <= media.value)
                then reason == Err(Unsupported)
                else if item.spec.range.Some? && item.spec.range.value != "" && IsBinary(media.value)
                then reason == Err(RangeOnBinary)
                else if store.blobs[sha].size > rules.capSetting || store.blobs[sha].size > 5 * 1024 * 1024
                then reason == Err(OverCap)
                else reason == Ok(Found(key, PinRecord(sha, media.value, store.blobs[sha].size), isKept))
  {
    var found := Judge(item, pin, env, rules);
    var path := Location(item, rules);
    if path.Some? && StoreOf(item, env).Some? {
      var located := Locate(item, path.value, pin, StoreOf(item, env).value, rules);
      if located.Ok? {
        AllowedExactly(located.value.record.media, rules.allowed);
      }
    }
  }
}
