/** What one whole pass of the collector guarantees, and what a second pass at the same time does. */
module CollectorPass {
  import opened Wrappers
  import opened Collector

  datatype Settings = Settings(now: int, ttlDays: int, quota: int, rule: MimeRule)

  /** Rows and files before the pass, between the fourth and the last stage, and after it. */
  datatype Pass = Pass(rows: Rows, files: set<File>, midRows: Rows, midFiles: set<File>, answer: Answer, newRows: Rows, newFiles: set<File>)

  function DraftCutoff(s: Settings): int {
    s.now - DRAFT_TTL_DAYS * DAY
  }

  function TtlCutoff(s: Settings): int {
    s.now - s.ttlDays * DAY
  }

  /** The rows between the third and the fourth stage. */
  function Kept(rows: Rows, files: set<File>, s: Settings): Rows {
    WithoutStale(BackedRows(rows, Swept(rows, files)), DraftCutoff(s))
  }

  function Aged(rows: Rows, files: set<File>, s: Settings): set<Key> {
    ExpiredKeys(Kept(rows, files, s), TtlCutoff(s), s.rule)
  }

  ghost predicate FirstStages(rows: Rows, files: set<File>, s: Settings, newRows: Rows, newFiles: set<File>) {
    && newRows == Evict(Kept(rows, files, s), Aged(rows, files, s), s.now)
    && exists rest :: UnlinksUnowned(Swept(rows, files), rest, Kept(rows, files, s))
                      && newFiles == rest - FilesOf(Kept(rows, files, s), Aged(rows, files, s), s.rule)
  }

  function Trimmed(p: Pass, s: Settings): set<Item> {
    TrimmedItems(p.answer, p.answer.Keys, s.quota)
  }

  ghost predicate IsPass(p: Pass, s: Settings) {
    && FirstStages(p.rows, p.files, s, p.midRows, p.midFiles)
    && Answers(p.midRows, p.answer, DraftCutoff(s), s.rule)
    && p.newRows == Evict(p.midRows, KeysOf(Trimmed(p, s)), s.now)
    && p.newFiles == p.midFiles - FilesOfItems(Trimmed(p, s))
  }

  /** The first four stages on a store; the fifth is `TrimUsers`. */
  method CollectFirst(store: Store, s: Settings)
    requires store.rule == s.rule
    modifies store
    ensures FirstStages(old(store.rows), old(store.files), s, store.rows, store.files)
  {
    hide Swept, BackedRows, WithoutStale, ExpiredKeys, Evict, FilesOf, UnlinksUnowned;
    var snapshot := store.rows;
    var swept := store.SweepFiles();
    store.DropUnbacked();
    BackedIsPart(snapshot, store.files);
    store.ExpireDrafts(snapshot, DraftCutoff(s));
    ghost var rest := store.files;
    store.ExpireGroups(TtlCutoff(s), s.now);
    assert UnlinksUnowned(Swept(snapshot, old(store.files)), rest, Kept(snapshot, old(store.files), s));
  }

  lemma BackedIsPart(rows: Rows, files: set<File>)
    ensures var part := BackedRows(rows, files); forall i :: i in part ==> i in rows && rows[i] == part[i]
  {
  }

  /** The whole pass. The answer of the quota query is asked of the rows the fourth stage left. */
  method CollectOnce(store: Store, s: Settings, ask: Rows -> Answer) returns (ghost p: Pass)
    requires store.rule == s.rule
    modifies store
    ensures p.rows == old(store.rows) && p.files == old(store.files)
    ensures p.newRows == store.rows && p.newFiles == store.files && p.answer == ask(p.midRows)
    ensures Answers(p.midRows, ask(p.midRows), DraftCutoff(s), s.rule) ==> IsPass(p, s)
  {
    hide FirstStages, Answers, Evict, TrimmedItems, FilesOfItems, KeysOf;
    CollectFirst(store, s);
    ghost var midRows, midFiles := store.rows, store.files;
    store.TrimUsers(ask(store.rows), s.quota, s.now);
    p := Pass(old(store.rows), old(store.files), midRows, midFiles, ask(midRows), store.rows, store.files);
  }

  // ----- rows -----------------------------------------------------------------------------------

  lemma EvictKeepsBacking(rows: Rows, files: set<File>, keys: set<Key>, gone: set<File>, now: int)
    requires forall i :: i in rows ==> Backed(rows[i], files)
    requires forall f :: f in gone ==> Key(f.user, f.stem) in keys
    ensures var n := Evict(rows, keys, now); forall i :: i in n ==> Backed(n[i], files - gone)
  {
  }

  lemma SweepSparesBacking(r: Row, rows: Rows, files: set<File>, i: nat)
    requires i in rows && rows[i] == r
    ensures Backed(r, Swept(rows, files)) <==> Backed(r, files)
  {
    if Live(r) {
      assert r.key in LiveKeys(rows);
    }
  }

  lemma KeptBacked(rows: Rows, files: set<File>, s: Settings, rest: set<File>)
    requires UnlinksUnowned(Swept(rows, files), rest, Kept(rows, files, s))
    ensures var kept := Kept(rows, files, s); forall i :: i in kept ==> Backed(kept[i], rest)
  {
  }

  lemma EvictedFilesHaveKeys(rows: Rows, keys: set<Key>, items: set<Item>, rule: MimeRule)
    ensures forall f :: f in FilesOf(rows, keys, rule) ==> Key(f.user, f.stem) in keys
    ensures forall f :: f in FilesOfItems(items) ==> Key(f.user, f.stem) in KeysOf(items)
  {
    hide GroupExt;
  }

  lemma FirstStagesBacked(rows: Rows, files: set<File>, s: Settings, newRows: Rows, newFiles: set<File>)
    requires FirstStages(rows, files, s, newRows, newFiles)
    ensures forall i :: i in newRows ==> Backed(newRows[i], newFiles)
  {
    var rest :| UnlinksUnowned(Swept(rows, files), rest, Kept(rows, files, s))
      && newFiles == rest - FilesOf(Kept(rows, files, s), Aged(rows, files, s), s.rule);
    KeptBacked(rows, files, s, rest);
    EvictedFilesHaveKeys(Kept(rows, files, s), Aged(rows, files, s), {}, s.rule);
    hide Kept, Aged, FilesOf, Evict, Backed, Swept, UnlinksUnowned;
    EvictKeepsBacking(Kept(rows, files, s), rest, Aged(rows, files, s), FilesOf(Kept(rows, files, s), Aged(rows, files, s), s.rule), s.now);
  }

  /** After a pass every surviving live row with a known mime has its file. */
  lemma SurvivorsHaveFiles(p: Pass, s: Settings)
    requires IsPass(p, s)
    ensures forall i :: i in p.newRows ==> Backed(p.newRows[i], p.newFiles)
  {
    FirstStagesBacked(p.rows, p.files, s, p.midRows, p.midFiles);
    EvictedFilesHaveKeys(map[], {}, Trimmed(p, s), s.rule);
    EvictKeepsBacking(p.midRows, p.midFiles, KeysOf(Trimmed(p, s)), FilesOfItems(Trimmed(p, s)), s.now);
  }

  predicate OwnsFile(r: Row, f: File) {
    Live(r) && Ext(r.mime).Some? && FileOf(r.key, Ext(r.mime).value) == f
  }

  /** A file a pass unlinked belongs to no live row that is left, and no file ever appears. */
  lemma UnlinkedHaveNoLiveRow(p: Pass, s: Settings)
    requires IsPass(p, s)
    ensures p.newFiles <= p.files
    ensures forall f, i :: f in p.files && f !in p.newFiles && i in p.newRows ==> !OwnsFile(p.newRows[i], f)
  {
    SurvivorsHaveFiles(p, s);
    hide Evict, Kept, Aged, KeysOf, FilesOfItems, FilesOf;
    var rest :| UnlinksUnowned(Swept(p.rows, p.files), rest, Kept(p.rows, p.files, s))
      && p.midFiles == rest - FilesOf(Kept(p.rows, p.files, s), Aged(p.rows, p.files, s), s.rule);
    forall f, i | f in p.files && f !in p.newFiles && i in p.newRows ensures !OwnsFile(p.newRows[i], f) {
      assert Backed(p.newRows[i], p.newFiles);
    }
  }

  lemma EvictOnlyMarks(rows: Rows, keys: set<Key>, now: int)
    ensures var n := Evict(rows, keys, now);
      n.Keys == rows.Keys && forall i :: i in rows ==> n[i] == rows[i] || (Live(rows[i]) && n[i] == rows[i].(evicted := Some(now)))
  {
  }

  /** What a pass does to the table, row by row: it deletes live rows without a file and stale drafts
      and no others, adds nothing, and changes a row only by marking a live one evicted. */
  lemma RowsAccountedFor(p: Pass, s: Settings)
    requires IsPass(p, s)
    ensures forall i :: i in p.newRows <==> i in p.rows && Backed(p.rows[i], p.files) && !StaleDraft(p.rows[i], DraftCutoff(s))
    ensures forall i :: i in p.newRows ==>
      p.newRows[i] == p.rows[i] || (Live(p.rows[i]) && p.newRows[i] == p.rows[i].(evicted := Some(s.now)))
  {
    EvictOnlyMarks(Kept(p.rows, p.files, s), Aged(p.rows, p.files, s), s.now);
    EvictOnlyMarks(p.midRows, KeysOf(Trimmed(p, s)), s.now);
    forall i | i in p.rows ensures Backed(p.rows[i], Swept(p.rows, p.files)) <==> Backed(p.rows[i], p.files) {
      SweepSparesBacking(p.rows[i], p.rows, p.files, i);
    }
    hide Evict, Swept, Backed, Aged, KeysOf, FilesOfItems, FilesOf, UnlinksUnowned, Answers;
  }

  // ----- a pass, in the fields of the rows --------------------------------------------------------

  /** A row of a known mime has its file; the others need none. */
  predicate FilePresent(r: Row, files: set<File>) {
    && (r.mime == "image/png" ==> File(r.key.user, r.key.sha, "png") in files)
    && (r.mime == "image/jpeg" ==> File(r.key.user, r.key.sha, "jpg") in files)
    && (r.mime == "image/webp" ==> File(r.key.user, r.key.sha, "webp") in files)
  }

  lemma BackedInFields(r: Row, files: set<File>)
    ensures Backed(r, files) <==> (r.evicted.None? ==> FilePresent(r, files))
  {
  }

  lemma StaleInFields(r: Row, s: Settings)
    ensures StaleDraft(r, DraftCutoff(s)) <==> !r.linked && r.evicted.None? && r.created < s.now - 7 * 86_400_000
  {
  }

  /** Which rows a pass deletes: live ones whose file is missing, and live ones that were never linked to a
      message and are more than seven days old. */
  lemma DeletedExactly(p: Pass, s: Settings, i: nat)
    requires IsPass(p, s) && i in p.rows
    ensures var r := p.rows[i];
      i !in p.newRows <==>
        r.evicted.None? && (!FilePresent(r, p.files) || (!r.linked && r.created < s.now - 7 * 86_400_000))
  {
    RowsAccountedFor(p, s);
    BackedInFields(p.rows[i], p.files);
    StaleInFields(p.rows[i], s);
    hide IsPass, Backed, FilePresent, StaleDraft;
  }

  /** A row of a sent message is never deleted while its file is there, and a row that is left after the
      pass and still live has its file. */
  lemma LinkedRowsStay(p: Pass, s: Settings, i: nat)
    requires IsPass(p, s) && i in p.rows
    ensures p.rows[i].linked && FilePresent(p.rows[i], p.files) ==> i in p.newRows
    ensures i in p.newRows && p.newRows[i].evicted.None? ==> FilePresent(p.newRows[i], p.newFiles)
  {
    DeletedExactly(p, s, i);
    SurvivorsHaveFiles(p, s);
    if i in p.newRows {
      BackedInFields(p.newRows[i], p.newFiles);
    }
    hide IsPass, Backed, FilePresent;
  }

  /** The rows the pass started with as live and did not delete, under one key. */
  ghost predicate Stays(p: Pass, j: nat, k: Key) {
    j in p.rows && j in p.newRows && p.rows[j].evicted.None? && p.rows[j].key == k
  }

  lemma GroupOfStaying(p: Pass, s: Settings, k: Key)
    requires IsPass(p, s)
    ensures var g := Group(Kept(p.rows, p.files, s), k);
      forall j :: (j in g <==> Stays(p, j, k)) && (j in g ==> g[j] == p.rows[j])
  {
    RowsAccountedFor(p, s);
    forall i | i in p.rows ensures Backed(p.rows[i], Swept(p.rows, p.files)) <==> Backed(p.rows[i], p.files) {
      SweepSparesBacking(p.rows[i], p.rows, p.files, i);
    }
    hide IsPass, Backed, Swept, StaleDraft;
  }

  /** Which live rows retention evicts: those whose group, as far as it stays, is older than the retention
      time to its newest row, and whose group has a known mime. */
  lemma AgedExactly(p: Pass, s: Settings, i: nat)
    requires IsPass(p, s) && i in p.newRows && i in p.rows && p.rows[i].evicted.None?
    ensures i in p.midRows
    ensures var k := p.rows[i].key;
      p.midRows[i].evicted.Some? <==>
        && (forall j :: Stays(p, j, k) ==> p.rows[j].created < s.now - s.ttlDays * 86_400_000)
        && s.rule(set j | j in p.rows && Stays(p, j, k) :: p.rows[j].mime) in {"image/png", "image/jpeg", "image/webp"}
  {
    var k := p.rows[i].key;
    var kept := Kept(p.rows, p.files, s);
    var g := Group(kept, k);
    GroupOfStaying(p, s, k);
    hide Kept, Answers;
    assert Stays(p, i, k);
    assert i in g && kept[i] == p.rows[i] && k in LiveKeys(kept);
    StayingMimes(p, g, k);
    AgedInFields(kept, k, TtlCutoff(s), s.rule);
    hide ExpiredKeys, Group, Mimes, Stays;
  }

  lemma StayingMimes(p: Pass, g: Rows, k: Key)
    requires forall j :: (j in g <==> Stays(p, j, k)) && (j in g ==> g[j] == p.rows[j])
    ensures Mimes(g) == set j | j in p.rows && Stays(p, j, k) :: p.rows[j].mime
  {
    forall j | j in g ensures g[j].mime in (set l | l in p.rows && Stays(p, l, k) :: p.rows[l].mime) {
      assert Stays(p, j, k) && j in p.rows;
    }
  }

  lemma AgedInFields(kept: Rows, k: Key, cutoff: int, rule: MimeRule)
    requires k in LiveKeys(kept)
    ensures k in ExpiredKeys(kept, cutoff, rule) <==>
      && (forall j :: j in Group(kept, k) ==> Group(kept, k)[j].created < cutoff)
      && rule(Mimes(Group(kept, k))) in {"image/png", "image/jpeg", "image/webp"}
  {
    hide Group, Mimes;
  }

  /** The file extension of each known mime. */
  predicate Extension(mime: string, ext: string) {
    (mime == "image/png" && ext == "png") || (mime == "image/jpeg" && ext == "jpg") || (mime == "image/webp" && ext == "webp")
  }

  lemma ExtensionIsExt(mime: string, ext: string)
    requires Extension(mime, ext)
    ensures Ext(mime) == Some(ext)
  {
  }

  /** A group that retention evicts loses its file, under the mime of the rows that stay. */
  lemma AgedFileGoes(p: Pass, s: Settings, i: nat, ext: string)
    requires IsPass(p, s) && i in p.midRows && i in p.rows && p.rows[i].evicted.None? && p.midRows[i].evicted.Some?
    ensures var k := p.rows[i].key;
      Extension(s.rule(set j | j in p.rows && Stays(p, j, k) :: p.rows[j].mime), ext) ==>
        File(k.user, k.sha, ext) !in p.midFiles && File(k.user, k.sha, ext) !in p.newFiles
  {
    var k := p.rows[i].key;
    var kept := Kept(p.rows, p.files, s);
    GroupOfStaying(p, s, k);
    StayingMimes(p, Group(kept, k), k);
    AgedKey(p, s, i);
    assert p.newFiles <= p.midFiles;
    hide IsPass, Kept, Aged, Stays, Group, Mimes, Extension, Ext;
    if Extension(s.rule(Mimes(Group(kept, k))), ext) {
      ExtensionIsExt(s.rule(Mimes(Group(kept, k))), ext);
      AgedKeyLosesFile(p, s, k, ext);
    }
  }

  lemma AgedKey(p: Pass, s: Settings, i: nat)
    requires p.midRows == Evict(Kept(p.rows, p.files, s), Aged(p.rows, p.files, s), s.now) && i in p.midRows && i in p.rows && p.rows[i].evicted.None? && p.midRows[i].evicted.Some?
    ensures p.rows[i].key in Aged(p.rows, p.files, s)
  {
    hide Aged, Swept;
  }

  lemma AgedKeyLosesFile(p: Pass, s: Settings, k: Key, ext: string)
    requires IsPass(p, s) && k in Aged(p.rows, p.files, s)
    requires GroupExt(Kept(p.rows, p.files, s), k, s.rule) == Some(ext)
    ensures File(k.user, k.sha, ext) !in p.midFiles
  {
    hide Aged, Kept, Evict, GroupExt, Answers, KeysOf, Trimmed, FilesOfItems, Swept, UnlinksUnowned;
    assert File(k.user, k.sha, ext) in FilesOf(Kept(p.rows, p.files, s), Aged(p.rows, p.files, s), s.rule);
  }

  /** A group that the quota evicts loses its file, under the mime of the rows that were still live. */
  lemma TrimmedFileGoes(p: Pass, s: Settings, i: nat, ext: string)
    requires IsPass(p, s) && i in p.midRows && p.midRows[i].evicted.None? && i in p.newRows && p.newRows[i].evicted.Some?
    ensures var k := p.midRows[i].key;
      Extension(s.rule(set j | j in p.midRows && p.midRows[j].evicted.None? && p.midRows[j].key == k :: p.midRows[j].mime), ext) ==>
        File(k.user, k.sha, ext) !in p.newFiles
  {
    var k := p.midRows[i].key;
    var x := TrimmedItem(p, s, i);
    TrimmedDescribed(p, s, x);
    SameMimes(p.midRows, k);
    assert p.newFiles == p.midFiles - FilesOfItems(Trimmed(p, s)) by { hide FilesOfItems, Trimmed; }
    hide IsPass, Trimmed, Group, Mimes, Extension, Ext, FilesOfItems;
    if Extension(s.rule(Mimes(Group(p.midRows, k))), ext) {
      ExtensionIsExt(s.rule(Mimes(Group(p.midRows, k))), ext);
      TrimmedLosesFile(p, s, x);
    }
  }

  lemma TrimmedItem(p: Pass, s: Settings, i: nat) returns (x: Item)
    requires p.newRows == Evict(p.midRows, KeysOf(Trimmed(p, s)), s.now) && i in p.midRows && p.midRows[i].evicted.None? && i in p.newRows && p.newRows[i].evicted.Some?
    ensures x in Trimmed(p, s) && x.key == p.midRows[i].key
  {
    hide Trimmed;
    x :| x in Trimmed(p, s) && x.key == p.midRows[i].key;
  }

  lemma TrimmedLosesFile(p: Pass, s: Settings, x: Item)
    requires p.newFiles == p.midFiles - FilesOfItems(Trimmed(p, s)) && x in Trimmed(p, s) && x.ext.Some?
    ensures File(x.key.user, x.key.sha, x.ext.value) !in p.newFiles
  {
    hide Trimmed;
  }

  lemma SameMimes(rows: Rows, k: Key)
    ensures Mimes(Group(rows, k)) == set j | j in rows && rows[j].evicted.None? && rows[j].key == k :: rows[j].mime
  {
    var g := Group(rows, k);
    forall j | j in rows && rows[j].evicted.None? && rows[j].key == k ensures rows[j].mime in Mimes(g) {
      assert j in g && g[j] == rows[j];
    }
    forall j | j in g ensures g[j].mime in (set l | l in rows && rows[l].evicted.None? && rows[l].key == k :: rows[l].mime) {
      assert j in rows && g[j] == rows[j];
    }
  }

  lemma TrimmedDescribed(p: Pass, s: Settings, x: Item)
    requires IsPass(p, s) && x in Trimmed(p, s)
    ensures x.ext == GroupExt(p.midRows, x.key, s.rule)
  {
    var u :| u in p.answer && x in Trim(p.answer[u], s.quota);
    TrimFacts(p.answer[u], s.quota);
    hide FirstStages, GroupExt;
  }

  /** What is on disk after a pass was there before, is no leftover of a crashed write, and had a live row. */
  lemma OrphansGo(p: Pass, s: Settings, f: File)
    requires IsPass(p, s) && f in p.newFiles
    ensures f in p.files && f.suffix != "tmp"
    ensures exists i :: i in p.rows && p.rows[i].evicted.None? && p.rows[i].key == Key(f.user, f.stem)
  {
    hide Kept, Aged, FilesOf, Evict, Answers, KeysOf, FilesOfItems;
    var rest :| UnlinksUnowned(Swept(p.rows, p.files), rest, Kept(p.rows, p.files, s))
      && p.midFiles == rest - FilesOf(Kept(p.rows, p.files, s), Aged(p.rows, p.files, s), s.rule);
    assert f in Swept(p.rows, p.files);
  }

  /** A user at or below nine tenths of the quota loses nothing to it. */
  lemma UnderQuotaUntouched(p: Pass, s: Settings, i: nat)
    requires IsPass(p, s) && i in p.midRows && p.midRows[i].evicted.None?
    requires p.midRows[i].key.user in p.answer && 10 * Used(p.answer[p.midRows[i].key.user]) <= 9 * s.quota
    ensures i in p.newRows && p.newRows[i] == p.midRows[i]
  {
    var k := p.midRows[i].key;
    forall x | x in Trimmed(p, s) ensures x.key != k {
      var u :| u in p.answer && x in Trim(p.answer[u], s.quota);
      TrimFacts(p.answer[u], s.quota);
      ListedKey(p.answer[u], x);
      hide FirstStages;
    }
    hide FirstStages, Answers, Trimmed;
  }

  // ----- an answer to the quota query always exists ----------------------------------------------

  lemma {:induction false} MaximumOf(group: Rows, size: bool) returns (i: nat)
    requires group != map[]
    ensures i in group
    ensures forall j :: j in group ==> if size then group[j].size <= group[i].size else group[j].created <= group[i].created
    decreases |group|
  {
    assert group.Keys != {};
    i :| i in group.Keys;
    var rest := group - {i};
    if rest == map[] {
      assert forall j :: j in group && j != i ==> j in rest;
    } else {
      assert rest.Keys == group.Keys - {i};
      var k := MaximumOf(rest, size);
      assert forall j :: j in group && j != i ==> j in rest && rest[j] == group[j];
      if if size then group[i].size < group[k].size else group[i].created < group[k].created {
        i := k;
      }
    }
  }

  lemma ItemExists(rows: Rows, k: Key, cutoff: int, rule: MimeRule) returns (x: Item)
    requires k in LiveKeys(rows)
    ensures x.key == k && Describes(rows, x, cutoff, rule)
  {
    var l :| l in rows && Live(rows[l]) && rows[l].key == k;
    assert l in Group(rows, k);
    var i := MaximumOf(Group(rows, k), true);
    var j := MaximumOf(Group(rows, k), false);
    x := Item(k, GroupExt(rows, k, rule), rows[i].size, rows[j].created, HasYoungDraft(rows, k, cutoff));
  }

  function InsertItem(items: seq<Item>, x: Item): seq<Item> {
    if items == [] || x.newest <= items[0].newest then [x] + items else [items[0]] + InsertItem(items[1..], x)
  }

  predicate AllAtLeast(items: seq<Item>, newest: int) {
    forall x :: x in items ==> newest <= x.newest
  }

  lemma SortedParts(items: seq<Item>)
    requires items != []
    ensures Sorted(items) <==> Sorted(items[1..]) && AllAtLeast(items[1..], items[0].newest)
  {
    var tail := items[1..];
    assert forall i :: 0 < i < |items| ==> items[i] == tail[i - 1] && items[i] in tail;
    if Sorted(items) {
      forall x | x in tail ensures items[0].newest <= x.newest {
        var a :| 0 <= a < |tail| && tail[a] == x;
        assert items[a + 1] == x;
      }
    }
  }

  lemma DistinctParts(items: seq<Item>)
    requires items != []
    ensures Distinct(items) <==> Distinct(items[1..]) && items[0].key !in Keys(items[1..])
  {
    var tail := items[1..];
    assert forall i :: 0 < i < |items| ==> items[i] == tail[i - 1];
    if Distinct(items) {
      forall a | 0 <= a < |tail| ensures tail[a].key != items[0].key {
        assert items[a + 1] == tail[a];
      }
    }
  }

  lemma KeysParts(items: seq<Item>)
    requires items != []
    ensures Keys(items) == {items[0].key} + Keys(items[1..])
  {
    var tail := items[1..];
    assert forall i :: 0 < i < |items| ==> items[i] == tail[i - 1];
    forall k | k in Keys(tail) ensures k in Keys(items) {
      var a :| 0 <= a < |tail| && tail[a].key == k;
      assert items[a + 1].key == k;
    }
  }

  lemma {:induction false} InsertMembers(items: seq<Item>, x: Item)
    ensures var n := InsertItem(items, x);
      Keys(n) == Keys(items) + {x.key} && forall y :: y in n <==> y in items || y == x
  {
    var n := InsertItem(items, x);
    KeysParts(n);
    if items == [] {
      assert n[1..] == [];
    } else if x.newest <= items[0].newest {
      assert n[1..] == items;
    } else {
      KeysParts(items);
      InsertMembers(items[1..], x);
      assert n[1..] == InsertItem(items[1..], x) && items == [items[0]] + items[1..];
    }
    hide Keys;
  }

  lemma {:induction false} InsertSorted(items: seq<Item>, x: Item)
    requires Sorted(items)
    ensures Sorted(InsertItem(items, x))
  {
    var n := InsertItem(items, x);
    SortedParts(n);
    if items == [] {
      assert n[1..] == [];
    } else {
      SortedParts(items);
      hide Sorted;
      if x.newest <= items[0].newest {
        assert n[1..] == items && items == [items[0]] + items[1..];
      } else {
        assert n[1..] == InsertItem(items[1..], x);
        InsertSorted(items[1..], x);
        InsertMembers(items[1..], x);
      }
    }
  }

  lemma {:induction false} InsertDistinct(items: seq<Item>, x: Item)
    requires Distinct(items) && x.key !in Keys(items)
    ensures Distinct(InsertItem(items, x))
  {
    var n := InsertItem(items, x);
    DistinctParts(n);
    if items == [] {
      assert n[1..] == [];
    } else {
      DistinctParts(items);
      KeysParts(items);
      hide Distinct, Keys;
      if x.newest <= items[0].newest {
        assert n[1..] == items;
      } else {
        assert n[1..] == InsertItem(items[1..], x);
        InsertDistinct(items[1..], x);
        InsertMembers(items[1..], x);
      }
    }
  }

  lemma {:induction false} ListExists(rows: Rows, keys: set<Key>, cutoff: int, rule: MimeRule) returns (items: seq<Item>)
    requires keys <= LiveKeys(rows)
    ensures Sorted(items) && Distinct(items) && Keys(items) == keys
    ensures forall x :: x in items ==> Describes(rows, x, cutoff, rule)
    decreases |keys|
  {
    items := [];
    if keys != {} {
      hide Describes, Sorted, Distinct, Keys, InsertItem;
      var k :| k in keys;
      var rest := ListExists(rows, keys - {k}, cutoff, rule);
      var x := ItemExists(rows, k, cutoff, rule);
      InsertMembers(rest, x);
      InsertSorted(rest, x);
      InsertDistinct(rest, x);
      items := InsertItem(rest, x);
      assert keys - {k} + {k} == keys;
    }
  }

  lemma {:induction false} AnswerFor(rows: Rows, users: set<nat>, cutoff: int, rule: MimeRule) returns (answer: Answer)
    ensures answer.Keys == users && forall u :: u in users ==> Lists(rows, u, answer[u], cutoff, rule)
    decreases |users|
  {
    hide Lists;
    answer := map[];
    if users != {} {
      var u :| u in users;
      answer := AnswerFor(rows, users - {u}, cutoff, rule);
      var items := UserListed(rows, u, cutoff, rule);
      answer := answer[u := items];
    }
  }

  lemma UserListed(rows: Rows, u: nat, cutoff: int, rule: MimeRule) returns (items: seq<Item>)
    ensures Lists(rows, u, items, cutoff, rule)
  {
    items := ListExists(rows, (set k | k in LiveKeys(rows) && k.user == u), cutoff, rule);
    hide Describes, Sorted, Distinct;
  }

  /** Whatever rows the first four stages leave, the quota query has an answer: a pass from any store, at
      any time, exists. */
  lemma AnswerExists(rows: Rows, cutoff: int, rule: MimeRule) returns (answer: Answer)
    ensures Answers(rows, answer, cutoff, rule)
  {
    answer := AnswerFor(rows, (set k | k in LiveKeys(rows) :: k.user), cutoff, rule);
    hide Lists;
  }

  // ----- the quota stage --------------------------------------------------------------------------

  lemma EvictGroups(rows: Rows, keys: set<Key>, now: int, k: Key)
    ensures Group(Evict(rows, keys, now), k) == if k in keys then map[] else Group(rows, k)
  {
  }

  lemma EvictLiveKeys(rows: Rows, keys: set<Key>, now: int)
    ensures LiveKeys(Evict(rows, keys, now)) == LiveKeys(rows) - keys
  {
    var n := Evict(rows, keys, now);
    forall k | k in LiveKeys(rows) - keys ensures k in LiveKeys(n) {
      var i :| i in rows && Live(rows[i]) && rows[i].key == k;
      assert n[i] == rows[i];
    }
  }

  /** Two descriptions of one group agree. */
  lemma DescribesUnique(rows: Rows, x: Item, other: Rows, y: Item, cutoff: int, rule: MimeRule)
    requires x.key == y.key && Group(rows, x.key) == Group(other, x.key)
    requires Describes(rows, x, cutoff, rule) && Describes(other, y, cutoff, rule)
    ensures x == y
  {
    var g := Group(rows, x.key);
    assert forall i :: i in g ==> rows[i] == g[i] && other[i] == g[i];
    var i :| i in g && rows[i].size == x.size;
    var j :| j in g && other[j].size == y.size;
    var k :| k in g && rows[k].created == x.newest;
    var l :| l in g && other[l].created == y.newest;
  }

  lemma ListedKey(items: seq<Item>, x: Item)
    requires x in items
    ensures x.key in Keys(items)
  {
    var a :| 0 <= a < |items| && items[a] == x;
  }

  lemma FirstListed(items: seq<Item>)
    ensures items == [] || (items[0] in items && items[0].key in Keys(items))
  {
  }

  lemma ListedOnce(items: seq<Item>, x: Item, y: Item)
    requires Distinct(items) && x in items && y in items && x.key == y.key
    ensures x == y
  {
    var a :| 0 <= a < |items| && items[a] == x;
    var b :| 0 <= b < |items| && items[b] == y;
  }

  lemma {:induction false} ChosenDistinct(items: seq<Item>, used: int, quota: int)
    requires Distinct(items)
    ensures Distinct(Chosen(items, used, quota))
  {
    if items != [] && 10 * used >= 8 * quota {
      var less := if Evictable(items[0]) then used - items[0].size else used;
      var rest := Chosen(items[1..], less, quota);
      ChosenDistinct(items[1..], less, quota);
      ChosenFrom(items[1..], less, quota);
      forall b | 0 <= b < |rest| ensures rest[b].key != items[0].key {
        assert rest[b] in items[1..];
        var a :| 0 <= a < |items[1..]| && items[1..][a] == rest[b];
        assert items[a + 1].key != items[0].key;
      }
    }
  }

  lemma TrimFacts(items: seq<Item>, quota: int)
    requires Distinct(items)
    ensures Distinct(Trim(items, quota))
    ensures forall x :: x in Trim(items, quota) ==> x in items && Evictable(x)
  {
    ChosenDistinct(items, Used(items), quota);
    ChosenFrom(items, Used(items), quota);
  }

  lemma {:induction false} UsedWithout(items: seq<Item>, j: nat)
    requires j < |items|
    ensures Used(items) == items[j].size + Used(items[..j] + items[j + 1..])
  {
    var rest := items[..j] + items[j + 1..];
    if j == 0 {
      assert rest == items[1..];
    } else {
      UsedWithout(items[1..], j - 1);
      assert rest[1..] == items[1..][..j - 1] + items[1..][j..];
    }
  }

  /** The bytes of a user are those of the groups left plus those of the groups evicted. */
  lemma {:induction false} UsedSplit(whole: seq<Item>, left: seq<Item>, gone: seq<Item>)
    requires Distinct(whole) && Distinct(left) && Distinct(gone)
    requires forall x :: x in whole <==> x in left || x in gone
    requires forall x :: x in left ==> x !in gone
    ensures Used(whole) == Used(left) + Used(gone)
    decreases |whole|
  {
    if whole == [] {
      FirstListed(left);
      FirstListed(gone);
    } else {
      var x := whole[0];
      if x in left {
        var j :| 0 <= j < |left| && left[j] == x;
        UsedWithout(left, j);
        SplitRest(whole, left, gone, j);
        UsedSplit(whole[1..], left[..j] + left[j + 1..], gone);
      } else {
        var j :| 0 <= j < |gone| && gone[j] == x;
        UsedWithout(gone, j);
        SplitRest(whole, gone, left, j);
        UsedSplit(whole[1..], left, gone[..j] + gone[j + 1..]);
      }
    }
  }

  lemma SplitRest(whole: seq<Item>, part: seq<Item>, other: seq<Item>, j: nat)
    requires Distinct(whole) && Distinct(part) && whole != [] && j < |part| && part[j] == whole[0]
    requires forall x :: x in whole <==> x in part || x in other
    requires forall x :: x in part ==> x !in other
    ensures var rest := part[..j] + part[j + 1..];
      && Distinct(rest)
      && (forall x :: x in whole[1..] <==> x in rest || x in other)
      && (forall x :: x in rest ==> x !in other)
  {
    var rest := part[..j] + part[j + 1..];
    assert forall x :: x in part <==> x in rest || x == part[j];
    assert part[j] !in rest;
    assert whole == [whole[0]] + whole[1..];
    assert whole[0] !in whole[1..];
  }

  /** Asked again after the quota stage, the query lists exactly the groups that were spared. */
  lemma SparedListed(p: Pass, s: Settings, u: nat, items: seq<Item>)
    requires IsPass(p, s) && u in p.answer && Lists(p.newRows, u, items, DraftCutoff(s), s.rule)
    ensures forall x :: x in p.answer[u] <==> x in items || x in Trim(p.answer[u], s.quota)
    ensures forall x :: x in items ==> x !in Trim(p.answer[u], s.quota)
  {
    var before := p.answer[u];
    var trim := Trim(before, s.quota);
    TrimFacts(before, s.quota);
    EvictLiveKeys(p.midRows, KeysOf(Trimmed(p, s)), s.now);
    hide Trim, Evict, FirstStages;
    forall x | x in items ensures x in before && x !in trim {
      SparedWasListed(p, s, u, items, x);
    }
    forall x | x in before && x !in trim ensures x in items {
      SparedStaysListed(p, s, u, items, x);
    }
  }

  lemma SparedWasListed(p: Pass, s: Settings, u: nat, items: seq<Item>, x: Item)
    requires IsPass(p, s) && u in p.answer && Lists(p.newRows, u, items, DraftCutoff(s), s.rule) && x in items
    ensures x in p.answer[u] && x !in Trim(p.answer[u], s.quota)
  {
    ListedKey(items, x);
    EvictLiveKeys(p.midRows, KeysOf(Trimmed(p, s)), s.now);
    EvictGroups(p.midRows, KeysOf(Trimmed(p, s)), s.now, x.key);
    hide Trim, Evict, FirstStages, Describes;
    assert x.key in Keys(p.answer[u]);
    var a :| 0 <= a < |p.answer[u]| && p.answer[u][a].key == x.key;
    DescribesUnique(p.midRows, p.answer[u][a], p.newRows, x, DraftCutoff(s), s.rule);
    assert x in Trim(p.answer[u], s.quota) ==> x in Trimmed(p, s);
  }

  lemma SparedStaysListed(p: Pass, s: Settings, u: nat, items: seq<Item>, x: Item)
    requires IsPass(p, s) && u in p.answer && Lists(p.newRows, u, items, DraftCutoff(s), s.rule)
    requires x in p.answer[u] && x !in Trim(p.answer[u], s.quota)
    ensures x in items
  {
    ListedKey(p.answer[u], x);
    SparedNotTrimmed(p, s, u, x);
    EvictLiveKeys(p.midRows, KeysOf(Trimmed(p, s)), s.now);
    EvictGroups(p.midRows, KeysOf(Trimmed(p, s)), s.now, x.key);
    hide Trim, Evict, FirstStages, Describes;
    assert x.key in Keys(items);
    var a :| 0 <= a < |items| && items[a].key == x.key;
    DescribesUnique(p.midRows, x, p.newRows, items[a], DraftCutoff(s), s.rule);
  }

  lemma SparedNotTrimmed(p: Pass, s: Settings, u: nat, x: Item)
    requires Answers(p.midRows, p.answer, DraftCutoff(s), s.rule) && u in p.answer
    requires x in p.answer[u] && x !in Trim(p.answer[u], s.quota)
    ensures x.key !in KeysOf(Trimmed(p, s))
  {
    ListedKey(p.answer[u], x);
    if x.key in KeysOf(Trimmed(p, s)) {
      var y :| y in Trimmed(p, s) && y.key == x.key;
      var v :| v in p.answer && y in Trim(p.answer[v], s.quota);
      TrimFacts(p.answer[v], s.quota);
      ListedKey(p.answer[v], y);
      ListedOnce(p.answer[u], x, y);
    }
  }

  /** A user over nine tenths of the quota ends below eight tenths, or with nothing evictable left. */
  lemma TrimmedEnough(p: Pass, s: Settings, u: nat, items: seq<Item>)
    requires IsPass(p, s) && u in p.answer && Lists(p.newRows, u, items, DraftCutoff(s), s.rule)
    ensures 10 * Used(p.answer[u]) <= 9 * s.quota ==> Used(items) == Used(p.answer[u])
    ensures 10 * Used(p.answer[u]) > 9 * s.quota ==> 10 * Used(items) < 8 * s.quota || forall x :: x in items ==> !Evictable(x)
  {
    var before := p.answer[u];
    SparedListed(p, s, u, items);
    BothDistinct(p, s, u, items);
    TrimFacts(before, s.quota);
    hide IsPass, Lists, Distinct, Evictable;
    UsedSplit(before, items, Trim(before, s.quota));
    ChosenEnough(before, Used(before), s.quota);
    hide Used, Chosen;
  }

  lemma BothDistinct(p: Pass, s: Settings, u: nat, items: seq<Item>)
    requires IsPass(p, s) && u in p.answer && Lists(p.newRows, u, items, DraftCutoff(s), s.rule)
    ensures Distinct(p.answer[u]) && Distinct(items)
  {
    hide FirstStages, Describes, Distinct, Sorted;
  }

  // ----- a second pass ------------------------------------------------------------------------

  lemma {:induction false} NothingToChoose(items: seq<Item>, used: int, quota: int)
    requires forall x :: x in items ==> !Evictable(x)
    ensures Chosen(items, used, quota) == []
  {
    if items != [] {
      assert items[0] in items;
      NothingToChoose(items[1..], used, quota);
    }
  }

  lemma NothingToTrim(items: seq<Item>, before: nat, quota: int)
    requires 10 * before <= 9 * quota ==> Used(items) == before
    requires 10 * before > 9 * quota ==> 10 * Used(items) < 8 * quota || forall x :: x in items ==> !Evictable(x)
    ensures Trim(items, quota) == []
  {
    if forall x :: x in items ==> !Evictable(x) {
      NothingToChoose(items, Used(items), quota);
    }
  }

  lemma StrangerHasNothing(p: Pass, s: Settings, u: nat, items: seq<Item>)
    requires IsPass(p, s) && Lists(p.newRows, u, items, DraftCutoff(s), s.rule) && u !in p.answer
    ensures items == []
  {
    EvictLiveKeys(p.midRows, KeysOf(Trimmed(p, s)), s.now);
    FirstListed(items);
  }

  lemma TrimAgain(p: Pass, s: Settings, u: nat, items: seq<Item>)
    requires IsPass(p, s) && Lists(p.newRows, u, items, DraftCutoff(s), s.rule)
    ensures Trim(items, s.quota) == []
  {
    if u in p.answer {
      TrimmedEnough(p, s, u, items);
      NothingToTrim(items, Used(p.answer[u]), s.quota);
    } else {
      StrangerHasNothing(p, s, u, items);
    }
    hide IsPass, Lists, Chosen;
  }

  lemma KeepsAll(rows: Rows, files: set<File>, s: Settings)
    requires forall i :: i in rows ==> Backed(rows[i], Swept(rows, files)) && !StaleDraft(rows[i], DraftCutoff(s))
    ensures Kept(rows, files, s) == rows
  {
    hide Backed, StaleDraft, Swept;
  }

  lemma NoStaleDraftLeft(p: Pass, s: Settings, i: nat)
    requires IsPass(p, s) && i in p.newRows
    ensures !StaleDraft(p.newRows[i], DraftCutoff(s))
  {
    RowsAccountedFor(p, s);
    hide IsPass, Backed;
  }

  lemma KeptAgain(p: Pass, s: Settings)
    requires IsPass(p, s)
    ensures Kept(p.newRows, p.newFiles, s) == p.newRows
  {
    SurvivorsHaveFiles(p, s);
    hide IsPass, Backed, Swept, Kept, StaleDraft;
    forall i | i in p.newRows ensures Backed(p.newRows[i], Swept(p.newRows, p.newFiles)) && !StaleDraft(p.newRows[i], DraftCutoff(s)) {
      SweepSparesBacking(p.newRows[i], p.newRows, p.newFiles, i);
      NoStaleDraftLeft(p, s, i);
    }
    KeepsAll(p.newRows, p.newFiles, s);
  }

  lemma AgedAgain(p: Pass, s: Settings)
    requires IsPass(p, s)
    ensures Aged(p.newRows, p.newFiles, s) == {}
  {
    KeptAgain(p, s);
    var kept := Kept(p.rows, p.files, s);
    var aged := Aged(p.rows, p.files, s);
    var trimmed := KeysOf(Trimmed(p, s));
    EvictLiveKeys(kept, aged, s.now);
    EvictLiveKeys(p.midRows, trimmed, s.now);
    hide Kept, KeysOf, LiveKeys, Evict, Answers;
    forall k ensures k !in Aged(p.newRows, p.newFiles, s) {
      EvictGroups(kept, aged, s.now, k);
      EvictGroups(p.midRows, trimmed, s.now, k);
      assert k in LiveKeys(p.newRows) ==> Group(p.newRows, k) == Group(kept, k);
    }
  }

  /** A second pass at the same time changes no row. */
  lemma SecondPassChangesNoRow(p: Pass, q: Pass, s: Settings)
    requires IsPass(p, s) && IsPass(q, s) && q.rows == p.newRows && q.files == p.newFiles
    ensures q.newRows == p.newRows
  {
    KeptAgain(p, s);
    AgedAgain(p, s);
    EvictNone(p.newRows, s.now);
    assert q.midRows == p.newRows;
    forall u | u in q.answer ensures Trim(q.answer[u], s.quota) == [] {
      TrimAgain(p, s, u, q.answer[u]);
    }
    assert KeysOf(Trimmed(q, s)) == {};
  }

  // ----- drafts -------------------------------------------------------------------------------

  predicate YoungDraft(r: Row, s: Settings) {
    Live(r) && !r.linked && r.created >= DraftCutoff(s)
  }

  lemma YoungNotAged(rows: Rows, files: set<File>, s: Settings, i: nat)
    requires s.ttlDays >= DRAFT_TTL_DAYS
    requires i in rows && Backed(rows[i], files) && YoungDraft(rows[i], s)
    ensures i in Kept(rows, files, s) && Kept(rows, files, s)[i] == rows[i] && rows[i].key !in Aged(rows, files, s)
  {
    SweepSparesBacking(rows[i], rows, files, i);
    var kept := Kept(rows, files, s);
    assert i in Group(kept, rows[i].key);
  }

  lemma YoungNotTrimmed(p: Pass, s: Settings, i: nat)
    requires Answers(p.midRows, p.answer, DraftCutoff(s), s.rule)
    requires i in p.midRows && YoungDraft(p.midRows[i], s)
    ensures p.midRows[i].key !in KeysOf(Trimmed(p, s))
  {
    var k := p.midRows[i].key;
    assert i in Group(p.midRows, k);
    assert HasYoungDraft(p.midRows, k, DraftCutoff(s));
    forall x | x in Trimmed(p, s) ensures x.key != k {
      var u :| u in p.answer && x in Trim(p.answer[u], s.quota);
      TrimFacts(p.answer[u], s.quota);
      var a :| 0 <= a < |p.answer[u]| && p.answer[u][a] == x;
      assert Describes(p.midRows, x, DraftCutoff(s), s.rule);
      hide Trim, Describes, HasYoungDraft;
    }
  }

  /** With a retention time of at least the draft TTL, a pass leaves every young draft with a file alone. */
  lemma YoungDraftsSurvive(p: Pass, s: Settings, i: nat)
    requires IsPass(p, s) && s.ttlDays >= DRAFT_TTL_DAYS
    requires i in p.rows && Backed(p.rows[i], p.files) && YoungDraft(p.rows[i], s)
    ensures i in p.newRows && p.newRows[i] == p.rows[i]
  {
    YoungNotAged(p.rows, p.files, s, i);
    assert i in p.midRows && p.midRows[i] == p.rows[i];
    YoungNotTrimmed(p, s, i);
  }

  /** With a shorter retention time the promise fails: a draft the user may still be composing with is
      evicted by the fourth stage. */
  lemma ShortRetentionEvictsDrafts(s: Settings, user: nat, sha: string) returns (rows: Rows, files: set<File>)
    requires s.ttlDays < DRAFT_TTL_DAYS && s.rule({"image/png"}) == "image/png"
    ensures 0 in rows && Backed(rows[0], files) && YoungDraft(rows[0], s)
    ensures forall m, g :: FirstStages(rows, files, s, m, g) ==> 0 in m && m[0] == rows[0].(evicted := Some(s.now))
  {
    var k := Key(user, sha);
    rows := map[0 := Row(k, false, "image/png", 1, TtlCutoff(s) - 1, None)];
    files := {FileOf(k, "png")};
    SweepSparesBacking(rows[0], rows, files, 0);
    var kept := Kept(rows, files, s);
    assert kept == rows;
    assert k in LiveKeys(kept) && Group(kept, k) == rows;
    assert Mimes(Group(kept, k)) == {"image/png"};
    assert k in Aged(rows, files, s);
  }

  /** From any store there is a pass. */
  lemma PassExists(rows: Rows, files: set<File>, s: Settings) returns (p: Pass)
    ensures IsPass(p, s) && p.rows == rows && p.files == files
  {
    var kept, aged := Kept(rows, files, s), Aged(rows, files, s);
    var midRows := Evict(kept, aged, s.now);
    var swept := Swept(rows, files);
    var midFiles := swept - FilesOf(kept, aged, s.rule);
    assert UnlinksUnowned(swept, swept, kept);
    var answer := AnswerExists(midRows, DraftCutoff(s), s.rule);
    hide Kept, Aged, Swept, FilesOf, Evict, Answers, UnlinksUnowned;
    var trimmed := TrimmedItems(answer, answer.Keys, s.quota);
    p := Pass(rows, files, midRows, midFiles, answer, Evict(midRows, KeysOf(trimmed), s.now), midFiles - FilesOfItems(trimmed));
  }

  /** Every pass from every store leaves every young draft with a file as it was. */
  ghost predicate KeepsYoungDrafts(s: Settings) {
    forall p, i :: IsPass(p, s) && i in p.rows && Backed(p.rows[i], p.files) && YoungDraft(p.rows[i], s) ==>
      i in p.newRows && p.newRows[i] == p.rows[i]
  }

  /** The promise about drafts holds if and only if the retention time is at least the draft TTL. */
  lemma RetentionExact(s: Settings)
    requires s.rule({"image/png"}) == "image/png"
    ensures KeepsYoungDrafts(s) <==> s.ttlDays >= DRAFT_TTL_DAYS
  {
    if s.ttlDays >= DRAFT_TTL_DAYS {
      forall p, i | IsPass(p, s) && i in p.rows && Backed(p.rows[i], p.files) && YoungDraft(p.rows[i], s)
        ensures i in p.newRows && p.newRows[i] == p.rows[i]
      {
        YoungDraftsSurvive(p, s, i);
      }
    } else {
      var rows, files := ShortRetentionEvictsDrafts(s, 0, "");
      var p := PassExists(rows, files, s);
      assert 0 in p.midRows && p.midRows[0] == rows[0].(evicted := Some(s.now));
      EvictOnlyMarks(p.midRows, KeysOf(Trimmed(p, s)), s.now);
      hide FirstStages, Answers, Evict, Backed;
      assert p.newRows[0] != p.rows[0];
    }
  }
}
