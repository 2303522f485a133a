/** The attachment collector: rows in a table, files on disk, and one pass of five stages that brings
    them into line, expires what is old and trims what is over quota.

    Times are whole numbers on one clock. The answer of the quota query is an argument of its stage,
    described by `Lists`. */
module Collector {
  import opened Wrappers

  datatype Key = Key(user: nat, sha: string)

  datatype Row = Row(key: Key, linked: bool, mime: string, size: nat, created: int, evicted: Option<int>)

  /** A file in a user's directory, its name split at the last dot. */
  datatype File = File(user: nat, stem: string, suffix: string)

  type Rows = map<nat, Row>

  const DRAFT_TTL_DAYS := 7
  const DAY := 86_400_000

  function Ext(mime: string): Option<string> {
    if mime == "image/png" then Some("png")
    else if mime == "image/jpeg" then Some("jpg")
    else if mime == "image/webp" then Some("webp")
    else None
  }

  function FileOf(k: Key, ext: string): File {
    File(k.user, k.sha, ext)
  }

  predicate Live(r: Row) {
    r.evicted.None?
  }

  function LiveKeys(rows: Rows): set<Key> {
    set i | i in rows && Live(rows[i]) :: rows[i].key
  }

  /** The live rows of one (user, sha256) group. */
  function Group(rows: Rows, k: Key): Rows {
    map i | i in rows && Live(rows[i]) && rows[i].key == k :: rows[i]
  }

  function Mimes(group: Rows): set<string> {
    set i | i in group :: group[i].mime
  }

  /** Any rule that picks one mime of a group; the query takes the least. */
  type MimeRule = set<string> -> string

  function GroupExt(rows: Rows, k: Key, rule: MimeRule): Option<string> {
    Ext(rule(Mimes(Group(rows, k))))
  }

  // ----- what the stages do to the rows -------------------------------------------------------

  predicate Keeps(rows: Rows, f: File) {
    f.suffix != "tmp" && Key(f.user, f.stem) in LiveKeys(rows)
  }

  function Swept(rows: Rows, files: set<File>): set<File> {
    set f | f in files && Keeps(rows, f)
  }

  predicate Backed(r: Row, files: set<File>) {
    Live(r) && Ext(r.mime).Some? ==> FileOf(r.key, Ext(r.mime).value) in files
  }

  function BackedRows(rows: Rows, files: set<File>): Rows {
    map i | i in rows && Backed(rows[i], files) :: rows[i]
  }

  predicate StaleDraft(r: Row, cutoff: int) {
    !r.linked && Live(r) && r.created < cutoff
  }

  function WithoutStale(rows: Rows, cutoff: int): Rows {
    map i | i in rows && !StaleDraft(rows[i], cutoff) :: rows[i]
  }

  /** Files go only when no row at all, live or evicted, is left under their key. */
  ghost predicate UnlinksUnowned(files: set<File>, rest: set<File>, rows: Rows) {
    rest <= files && forall f, i :: f in files && f !in rest && i in rows ==> rows[i].key != Key(f.user, f.stem)
  }

  predicate Unowned(rows: Rows, k: Key) {
    forall i :: i in rows ==> rows[i].key != k
  }

  /** One of the key's stale drafts has no file any more. */
  ghost predicate Reclaimed(drafts: Rows, files: set<File>, k: Key, cutoff: int) {
    exists i :: i in drafts && drafts[i].key == k && StaleDraft(drafts[i], cutoff) && NoFile(drafts[i], files)
  }

  predicate NoFile(r: Row, files: set<File>) {
    Ext(r.mime).Some? ==> FileOf(r.key, Ext(r.mime).value) !in files
  }

  /** The last row of a key takes a file along. */
  ghost predicate UnlinksWithLast(drafts: Rows, files: set<File>, rows: Rows, cutoff: int) {
    forall i :: i in drafts && StaleDraft(drafts[i], cutoff) && Unowned(rows, drafts[i].key) ==>
      Reclaimed(drafts, files, drafts[i].key, cutoff)
  }

  /** With one mime to a key, that is the file of each of its stale drafts. */
  lemma LastRowTakesFile(drafts: Rows, files: set<File>, rows: Rows, cutoff: int, i: nat)
    requires UnlinksWithLast(drafts, files, rows, cutoff)
    requires i in drafts && StaleDraft(drafts[i], cutoff) && Unowned(rows, drafts[i].key)
    requires forall j :: j in drafts && drafts[j].key == drafts[i].key ==> drafts[j].mime == drafts[i].mime
    ensures NoFile(drafts[i], files)
  {
    assert Reclaimed(drafts, files, drafts[i].key, cutoff);
  }

  function Evict(rows: Rows, keys: set<Key>, now: int): Rows {
    map i | i in rows :: if Live(rows[i]) && rows[i].key in keys then rows[i].(evicted := Some(now)) else rows[i]
  }

  predicate Expired(rows: Rows, k: Key, cutoff: int) {
    forall i :: i in Group(rows, k) ==> Group(rows, k)[i].created < cutoff
  }

  function ExpiredKeys(rows: Rows, cutoff: int, rule: MimeRule): set<Key> {
    set k | k in LiveKeys(rows) && Expired(rows, k, cutoff) && GroupExt(rows, k, rule).Some?
  }

  function FilesOf(rows: Rows, keys: set<Key>, rule: MimeRule): set<File> {
    set k | k in keys && GroupExt(rows, k, rule).Some? :: FileOf(k, GroupExt(rows, k, rule).value)
  }

  // ----- trimming to the quota ----------------------------------------------------------------

  /** One line of the quota query: `young` says that the group holds a draft younger than the draft
      TTL, `ext` is its extension if its mime is known. */
  datatype Item = Item(key: Key, ext: Option<string>, size: nat, newest: int, young: bool)

  predicate Evictable(x: Item) {
    !x.young && x.ext.Some?
  }

  predicate HasYoungDraft(rows: Rows, k: Key, cutoff: int) {
    exists i :: i in Group(rows, k) && !rows[i].linked && rows[i].created >= cutoff
  }

  predicate Describes(rows: Rows, x: Item, cutoff: int, rule: MimeRule) {
    && x.ext == GroupExt(rows, x.key, rule)
    && (forall i :: i in Group(rows, x.key) ==> rows[i].size <= x.size && rows[i].created <= x.newest)
    && (exists i :: i in Group(rows, x.key) && rows[i].size == x.size)
    && (exists i :: i in Group(rows, x.key) && rows[i].created == x.newest)
    && (x.young <==> HasYoungDraft(rows, x.key, cutoff))
  }

  predicate Distinct(items: seq<Item>) {
    forall a, b :: 0 <= a < b < |items| ==> items[a].key != items[b].key
  }

  predicate Sorted(items: seq<Item>) {
    forall a, b :: 0 <= a < b < |items| ==> items[a].newest <= items[b].newest
  }

  function Keys(items: seq<Item>): set<Key> {
    set a | 0 <= a < |items| :: items[a].key
  }

  /** The query's answer for one user: each live group once, oldest first. */
  predicate Lists(rows: Rows, user: nat, items: seq<Item>, cutoff: int, rule: MimeRule) {
    && Distinct(items) && Sorted(items)
    && Keys(items) == (set k | k in LiveKeys(rows) && k.user == user)
    && (forall a :: 0 <= a < |items| ==> Describes(rows, items[a], cutoff, rule))
  }

  function Used(items: seq<Item>): nat {
    if items == [] then 0 else items[0].size + Used(items[1..])
  }

  /** The eviction loop, oldest group first. */
  function Chosen(items: seq<Item>, used: int, quota: int): seq<Item> {
    if items == [] || 10 * used < 8 * quota then []
    else if Evictable(items[0]) then [items[0]] + Chosen(items[1..], used - items[0].size, quota)
    else Chosen(items[1..], used, quota)
  }

  /** Nothing happens to a user at or below nine tenths of the quota. */
  function Trim(items: seq<Item>, quota: int): seq<Item> {
    if 10 * Used(items) <= 9 * quota then [] else Chosen(items, Used(items), quota)
  }

  /** The loop stops only below eight tenths of the quota or with nothing evictable left. */
  lemma {:induction false} ChosenEnough(items: seq<Item>, used: int, quota: int)
    ensures 10 * (used - Used(Chosen(items, used, quota))) < 8 * quota
      || forall x :: x in items && Evictable(x) ==> x in Chosen(items, used, quota)
  {
    if items != [] && 10 * used >= 8 * quota {
      var less := if Evictable(items[0]) then used - items[0].size else used;
      ChosenEnough(items[1..], less, quota);
      assert items == [items[0]] + items[1..];
      var rest := Chosen(items[1..], less, quota);
      if Evictable(items[0]) {
        assert ([items[0]] + rest)[1..] == rest;
      }
    }
  }

  /** And it does not go on after that: before its last eviction the user was at eight tenths or more. */
  lemma {:induction false} ChosenNoMore(items: seq<Item>, used: int, quota: int)
    ensures var c := Chosen(items, used, quota); c != [] ==> 10 * (used - Used(c[..|c| - 1])) >= 8 * quota
  {
    var c := Chosen(items, used, quota);
    if c != [] {
      if Evictable(items[0]) {
        var rest := Chosen(items[1..], used - items[0].size, quota);
        ChosenNoMore(items[1..], used - items[0].size, quota);
        assert c == [items[0]] + rest;
        if rest == [] {
          assert c[..|c| - 1] == [];
        } else {
          assert c[..|c| - 1] == [items[0]] + rest[..|rest| - 1];
          assert c[..|c| - 1][1..] == rest[..|rest| - 1];
        }
      } else {
        ChosenNoMore(items[1..], used, quota);
      }
    }
  }

  /** Only evictable groups are chosen, and never one while an older evictable group is spared. */
  lemma {:induction false} ChosenOldestFirst(items: seq<Item>, used: int, quota: int, a: nat, b: nat)
    requires a < b < |items| && Distinct(items) && Evictable(items[a]) && items[b] in Chosen(items, used, quota)
    ensures items[a] in Chosen(items, used, quota)
  {
    var less := if Evictable(items[0]) then used - items[0].size else used;
    var rest := Chosen(items[1..], less, quota);
    assert items[b] in rest by {
      assert items[b] != items[0];
    }
    if a > 0 {
      ChosenOldestFirst(items[1..], less, quota, a - 1, b - 1);
    }
  }

  lemma {:induction false} ChosenFrom(items: seq<Item>, used: int, quota: int)
    ensures forall x :: x in Chosen(items, used, quota) ==> x in items && Evictable(x)
  {
    if items != [] && 10 * used >= 8 * quota {
      ChosenFrom(items[1..], if Evictable(items[0]) then used - items[0].size else used, quota);
      assert items == [items[0]] + items[1..];
    }
  }

  function FilesFor(items: seq<Item>): set<File> {
    set x | x in items && x.ext.Some? :: FileOf(x.key, x.ext.value)
  }

  /** The answers for all users, and everything the quota stage evicts. */
  type Answer = map<nat, seq<Item>>

  predicate Answers(rows: Rows, answer: Answer, cutoff: int, rule: MimeRule) {
    && (forall u :: u in answer ==> Lists(rows, u, answer[u], cutoff, rule))
    && (forall k :: k in LiveKeys(rows) ==> k.user in answer)
  }

  function TrimmedItems(answer: Answer, users: set<nat>, quota: int): set<Item> {
    set u, x | u in users && u in answer && x in Trim(answer[u], quota) :: x
  }

  function KeysOf(items: set<Item>): set<Key> {
    set x | x in items :: x.key
  }

  function FilesOfItems(items: set<Item>): set<File> {
    set x | x in items && x.ext.Some? :: FileOf(x.key, x.ext.value)
  }

  // ----- the pass, in place -------------------------------------------------------------------

  lemma EvictTwice(rows: Rows, a: set<Key>, b: set<Key>, now: int)
    ensures Evict(Evict(rows, a, now), b, now) == Evict(rows, a + b, now)
  {
  }

  lemma EvictNone(rows: Rows, now: int)
    ensures Evict(rows, {}, now) == rows
  {
  }

  class Store {
    var rows: Rows
    var files: set<File>
    const rule: MimeRule

    constructor (rows: Rows, files: set<File>, rule: MimeRule)
      ensures this.rows == rows && this.files == files && this.rule == rule
    {
      this.rows, this.files, this.rule := rows, files, rule;
    }

    /** Stage 1: files without a live row, and leftovers of crashed writes. */
    method SweepFiles() returns (swept: nat)
      modifies this`files
      ensures files == Swept(rows, old(files)) && swept == |old(files) - files|
    {
      var todo := files;
      swept := 0;
      while todo != {}
        invariant todo <= files <= old(files)
        invariant forall f :: f in old(files) ==> (f in files <==> f in todo || Keeps(rows, f))
        invariant swept == |old(files) - files|
        decreases |todo|
      {
        var f :| f in todo;
        todo := todo - {f};
        if f.suffix == "tmp" || Key(f.user, f.stem) !in LiveKeys(rows) {
          assert old(files) - (files - {f}) == old(files) - files + {f};
          files := files - {f};
          swept := swept + 1;
        }
      }
    }

    /** Stage 2: live rows whose file is missing. */
    method DropUnbacked()
      modifies this`rows
      ensures rows == BackedRows(old(rows), files)
    {
      var todo := rows.Keys;
      while todo != {}
        invariant todo <= rows.Keys <= old(rows).Keys
        invariant forall i :: i in rows ==> rows[i] == old(rows)[i]
        invariant forall i :: i in old(rows) ==> (i in rows <==> i in todo || Backed(old(rows)[i], files))
        decreases |todo|
      {
        var i :| i in todo;
        todo := todo - {i};
        if !Backed(rows[i], files) {
          rows := rows - {i};
        }
      }
    }

    /** Stage 3: drafts never linked to a message, from the rows as they were at the start of the pass.
        A file is unlinked when its key has no row left, evicted ones included, and only then. */
    method ExpireDrafts(snapshot: Rows, cutoff: int)
      requires forall i :: i in rows ==> i in snapshot && snapshot[i] == rows[i]
      modifies this`rows, this`files
      ensures rows == WithoutStale(old(rows), cutoff)
      ensures UnlinksUnowned(old(files), files, rows)
      ensures UnlinksWithLast(snapshot, files, rows, cutoff)
    {
      hide Reclaimed, Unowned, NoFile;
      var todo := snapshot.Keys;
      while todo != {}
        invariant todo <= snapshot.Keys && rows.Keys <= old(rows).Keys
        invariant forall i :: i in rows ==> rows[i] == old(rows)[i]
        invariant forall i :: i in old(rows) ==> (i in rows <==> i in todo || !StaleDraft(old(rows)[i], cutoff))
        invariant UnlinksUnowned(old(files), files, rows)
        invariant forall i :: i in snapshot && i !in todo && StaleDraft(snapshot[i], cutoff) && Unowned(rows, snapshot[i].key) ==>
          Reclaimed(snapshot, files, snapshot[i].key, cutoff)
        decreases |todo|
      {
        var i :| i in todo;
        todo := todo - {i};
        var r := snapshot[i];
        if StaleDraft(r, cutoff) {
          DraftGone(snapshot, rows, files, i, cutoff);
          rows := rows - {i};
          if Ext(r.mime).Some? && (forall j :: j in rows ==> rows[j].key != r.key) {
            files := files - {FileOf(r.key, Ext(r.mime).value)};
          }
        }
      }
    }

    /** One group: its file is unlinked and its live rows are marked, or it is skipped whole. */
    method EvictGroup(k: Key, ext: Option<string>, now: int) returns (evicted: bool)
      modifies this`rows, this`files
      ensures evicted <==> ext.Some?
      ensures rows == if evicted then Evict(old(rows), {k}, now) else old(rows)
      ensures files == if evicted then old(files) - {FileOf(k, ext.value)} else old(files)
    {
      if ext.None? {
        return false;
      }
      files := files - {FileOf(k, ext.value)};
      rows := Evict(rows, {k}, now);
      return true;
    }

    /** Stage 4: groups whose newest live row is past the retention time. */
    method ExpireGroups(cutoff: int, now: int)
      modifies this`rows, this`files
      ensures rows == Evict(old(rows), ExpiredKeys(old(rows), cutoff, rule), now)
      ensures files == old(files) - FilesOf(old(rows), ExpiredKeys(old(rows), cutoff, rule), rule)
    {
      hide Evict, FilesOf, ExpiredKeys, GroupExt, Expired;
      ghost var expired := ExpiredKeys(rows, cutoff, rule);
      var groups := rows;
      var todo := LiveKeys(rows);
      ghost var done: set<Key> := {};
      NothingExpired(rows, expired, now, rule);
      while todo != {}
        invariant todo + done == LiveKeys(groups) && todo !! done
        invariant rows == Evict(groups, done * expired, now)
        invariant files == old(files) - FilesOf(groups, done * expired, rule)
        decreases |todo|
      {
        var k :| k in todo;
        todo := todo - {k};
        ExpireOne(groups, done, k, cutoff, now, rule);
        if Expired(groups, k, cutoff) {
          var evicted := EvictGroup(k, GroupExt(groups, k, rule), now);
        }
        done := done + {k};
      }
      AllExpired(groups, done, cutoff, rule);
    }

    /** Stage 5 for one user. */
    method TrimUser(items: seq<Item>, quota: int, now: int)
      modifies this`rows, this`files
      ensures rows == Evict(old(rows), Keys(Trim(items, quota)), now)
      ensures files == old(files) - FilesFor(Trim(items, quota))
    {
      var used := 0;
      for a := 0 to |items|
        invariant used + Used(items[a..]) == Used(items)
      {
        assert items[a..][1..] == items[a + 1..];
        used := used + items[a].size;
      }
      if 10 * used <= 9 * quota {
        EvictNone(rows, now);
        return;
      }
      EvictDownTo(items, used, quota, now);
    }

    method EvictDownTo(items: seq<Item>, total: int, quota: int, now: int)
      modifies this`rows, this`files
      ensures rows == Evict(old(rows), Keys(Chosen(items, total, quota)), now)
      ensures files == old(files) - FilesFor(Chosen(items, total, quota))
    {
      hide Evict, Keys, FilesFor;
      var used := total;
      ghost var chosen: seq<Item> := [];
      NothingChosen(rows, now);
      var a := 0;
      assert items[0..] == items;
      while a < |items| && 10 * used >= 8 * quota
        invariant 0 <= a <= |items|
        invariant chosen + Chosen(items[a..], used, quota) == Chosen(items, total, quota)
        invariant rows == Evict(old(rows), Keys(chosen), now)
        invariant files == old(files) - FilesFor(chosen)
      {
        ChosenStep(items, a, used, quota);
        if !items[a].young {
          var evicted := EvictGroup(items[a].key, items[a].ext, now);
          if evicted {
            ChosenOneMore(old(rows), chosen, items[a], now);
            used := used - items[a].size;
            chosen := chosen + [items[a]];
          }
        }
        a := a + 1;
      }
      assert chosen + [] == chosen;
    }

    /** Stage 5 over all users, in any order. */
    method TrimUsers(answer: Answer, quota: int, now: int)
      modifies this`rows, this`files
      ensures rows == Evict(old(rows), KeysOf(TrimmedItems(answer, answer.Keys, quota)), now)
      ensures files == old(files) - FilesOfItems(TrimmedItems(answer, answer.Keys, quota))
    {
      hide Evict, KeysOf, TrimmedItems, FilesOfItems, Keys, FilesFor, Trim;
      var todo := answer.Keys;
      NoneTrimmed(rows, answer, quota, now);
      while todo != {}
        invariant todo <= answer.Keys
        invariant rows == Evict(old(rows), KeysOf(TrimmedItems(answer, answer.Keys - todo, quota)), now)
        invariant files == old(files) - FilesOfItems(TrimmedItems(answer, answer.Keys - todo, quota))
        decreases |todo|
      {
        var u :| u in todo;
        TrimUser(answer[u], quota, now);
        TrimOneMore(old(rows), answer, answer.Keys - todo, u, quota, now);
        assert answer.Keys - todo + {u} == answer.Keys - (todo - {u});
        todo := todo - {u};
      }
      assert answer.Keys - {} == answer.Keys;
    }
  }

  /** Deleting one stale draft: other keys are as before, and its own is reclaimed if it has no row left. */
  lemma DraftGone(drafts: Rows, rows: Rows, files: set<File>, i: nat, cutoff: int)
    requires i in drafts && StaleDraft(drafts[i], cutoff) && (i in rows ==> rows[i] == drafts[i])
    ensures var r, left := drafts[i], rows - {i};
      var rest := if Ext(r.mime).Some? && (forall j :: j in left ==> left[j].key != r.key)
        then files - {FileOf(r.key, Ext(r.mime).value)} else files;
      && (Unowned(left, r.key) ==> Reclaimed(drafts, rest, r.key, cutoff))
      && (forall k :: k != r.key && Unowned(left, k) ==> Unowned(rows, k))
      && (forall k :: Reclaimed(drafts, files, k, cutoff) ==> Reclaimed(drafts, rest, k, cutoff))
  {
    var r, left := drafts[i], rows - {i};
    if Unowned(left, r.key) {
      assert Ext(r.mime).Some? ==> forall j :: j in left ==> left[j].key != r.key;
    }
    forall k | k != r.key && Unowned(left, k) ensures Unowned(rows, k) {
      assert forall j :: j in rows && j != i ==> j in left && left[j] == rows[j];
    }
  }

  lemma NothingExpired(rows: Rows, expired: set<Key>, now: int, rule: MimeRule)
    ensures Evict(rows, {} * expired, now) == rows && FilesOf(rows, {} * expired, rule) == {}
  {
  }

  lemma AllExpired(rows: Rows, done: set<Key>, cutoff: int, rule: MimeRule)
    requires done == LiveKeys(rows)
    ensures done * ExpiredKeys(rows, cutoff, rule) == ExpiredKeys(rows, cutoff, rule)
  {
  }

  lemma ExpireOne(rows: Rows, done: set<Key>, k: Key, cutoff: int, now: int, rule: MimeRule)
    requires k in LiveKeys(rows)
    ensures var expired := ExpiredKeys(rows, cutoff, rule);
      if Expired(rows, k, cutoff) && GroupExt(rows, k, rule).Some? then
        && Evict(Evict(rows, done * expired, now), {k}, now) == Evict(rows, (done + {k}) * expired, now)
        && FilesOf(rows, (done + {k}) * expired, rule)
             == FilesOf(rows, done * expired, rule) + {FileOf(k, GroupExt(rows, k, rule).value)}
      else (done + {k}) * expired == done * expired
  {
    hide Evict, Expired, GroupExt;
    var expired := ExpiredKeys(rows, cutoff, rule);
    if k in expired {
      assert (done + {k}) * expired == done * expired + {k};
      EvictTwice(rows, done * expired, {k}, now);
    } else {
      assert (done + {k}) * expired == done * expired;
    }
  }

  lemma NothingChosen(rows: Rows, now: int)
    ensures Evict(rows, Keys([]), now) == rows && FilesFor([]) == {}
  {
  }

  lemma ChosenStep(items: seq<Item>, a: nat, used: int, quota: int)
    requires a < |items| && 10 * used >= 8 * quota
    ensures Chosen(items[a..], used, quota)
      == if Evictable(items[a]) then [items[a]] + Chosen(items[a + 1..], used - items[a].size, quota)
         else Chosen(items[a + 1..], used, quota)
  {
    assert items[a..][1..] == items[a + 1..] && items[a..][0] == items[a];
  }

  lemma NoneTrimmed(rows: Rows, answer: Answer, quota: int, now: int)
    ensures var nobody := answer.Keys - answer.Keys;
      Evict(rows, KeysOf(TrimmedItems(answer, nobody, quota)), now) == rows && FilesOfItems(TrimmedItems(answer, nobody, quota)) == {}
  {
  }

  lemma ChosenOneMore(rows: Rows, chosen: seq<Item>, x: Item, now: int)
    requires x.ext.Some?
    ensures Evict(Evict(rows, Keys(chosen), now), {x.key}, now) == Evict(rows, Keys(chosen + [x]), now)
    ensures FilesFor(chosen + [x]) == FilesFor(chosen) + {FileOf(x.key, x.ext.value)}
  {
    EvictTwice(rows, Keys(chosen), {x.key}, now);
    var more := chosen + [x];
    assert Keys(more) == Keys(chosen) + {x.key} by {
      forall k | k in Keys(chosen) ensures k in Keys(more) {
        var a :| 0 <= a < |chosen| && chosen[a].key == k;
        assert more[a].key == k;
      }
      assert more[|chosen|].key == x.key;
    }
    assert forall y :: y in more <==> y in chosen || y == x;
  }

  lemma TrimOneMore(rows: Rows, answer: Answer, users: set<nat>, u: nat, quota: int, now: int)
    requires u in answer
    ensures var items := Trim(answer[u], quota);
      && Evict(Evict(rows, KeysOf(TrimmedItems(answer, users, quota)), now), Keys(items), now)
           == Evict(rows, KeysOf(TrimmedItems(answer, users + {u}, quota)), now)
      && FilesOfItems(TrimmedItems(answer, users + {u}, quota)) == FilesOfItems(TrimmedItems(answer, users, quota)) + FilesFor(items)
  {
    var items := Trim(answer[u], quota);
    var before := TrimmedItems(answer, users, quota);
    var after := TrimmedItems(answer, users + {u}, quota);
    hide Trim;
    assert forall x :: x in after <==> x in before || x in items;
    EvictTwice(rows, KeysOf(before), Keys(items), now);
    assert KeysOf(after) == KeysOf(before) + Keys(items) by {
      forall k | k in KeysOf(after) ensures k in KeysOf(before) + Keys(items) {
        var x :| x in after && x.key == k;
        if x in items {
          var a :| 0 <= a < |items| && items[a] == x;
        }
      }
      forall k | k in Keys(items) ensures k in KeysOf(after) {
        var a :| 0 <= a < |items| && items[a].key == k;
        assert items[a] in after;
      }
    }
  }
}
