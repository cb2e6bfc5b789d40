/**
 * Gallery records and the transforms the library applies to them (src/lib/gallery.ts):
 * merging a scanned or downloaded gallery into the store by name, marking chapters read,
 * deleting chapters, and the small queries the screens use.
 */
module Gallery {
  import opened Wrappers
  import opened JsString
  import Storage
  import FileSystem

  /** One chapter: a directory of page files. */
  datatype Chapter = Chapter(name: string, path: string, pages: seq<string>, read: bool, currentPage: int)

  datatype MangaStatus = Finished | Releasing | NotYetReleased | Cancelled | Hiatus

  /** The label shown for each publication status. */
  function StatusLabel(status: MangaStatus): string
  {
    match status
    case Cancelled => "Cancelled"
    case Finished => "Finished"
    case Hiatus => "Hiatus"
    case NotYetReleased => "Not release"
    case Releasing => "Releasing"
  }

  /** The metadata fields of a linked manga that the library reads. */
  datatype Manga = Manga(status: Option<MangaStatus>, description: string, averageScore: int, favorites: int)

  /** A stored gallery; absent optional properties are `None`. */
  datatype Gallery = Gallery(
    id: int,
    name: string,
    path: string,
    dirsCount: int,
    filesCount: int,
    lastReadAt: Option<string>,
    chapters: seq<Chapter>,
    manga: Option<Manga>,
    filtered: Option<bool>)

  /** The chapter names, in order. */
  function Names(cs: seq<Chapter>): (r: seq<string>)
    ensures |r| == |cs| && forall i :: 0 <= i < |cs| ==> r[i] == cs[i].name
  {
    seq(|cs|, i requires 0 <= i < |cs| => cs[i].name)
  }

  /** No name occurs twice. */
  predicate Distinct(names: seq<string>)
  {
    forall i, j :: 0 <= i < j < |names| ==> names[i] != names[j]
  }

  // ----- upsertGallery ----------------------------------------------------------------

  /** `galleries.find(it => it.name === name)`, as the position of the first match. */
  function FindByName(galleries: seq<Gallery>, name: string): (r: Option<nat>)
    ensures r.Some? ==> r.value < |galleries| && galleries[r.value].name == name
    ensures r.Some? ==> forall j :: 0 <= j < r.value ==> galleries[j].name != name
    ensures r.None? ==> forall j :: 0 <= j < |galleries| ==> galleries[j].name != name
  {
    if galleries == [] then None
    else if galleries[0].name == name then Some(0)
    else match FindByName(galleries[1..], name)
      case None => None
      case Some(i) => Some(i + 1)
  }

  /** The incoming chapters whose names are not already known, in their order. */
  function NewChapters(known: seq<string>, incoming: seq<Chapter>): (r: seq<Chapter>)
    ensures forall c :: c in r <==> c in incoming && c.name !in known
    ensures |r| <= |incoming|
  {
    if incoming == [] then []
    else
      assert incoming == [incoming[0]] + incoming[1..];
      (if incoming[0].name in known then [] else [incoming[0]]) + NewChapters(known, incoming[1..])
  }

  /** The chapters of a merge: the stored ones, then the incoming ones with new names. */
  function MergeChapters(found: seq<Chapter>, incoming: seq<Chapter>): seq<Chapter>
  {
    found + NewChapters(Names(found), incoming)
  }

  /** `{...gallery, ...found, chapters}`: every property the stored record has wins. */
  function MergeGallery(gallery: Gallery, found: Gallery): Gallery
  {
    Gallery(
      found.id, found.name, found.path, found.dirsCount, found.filesCount,
      if found.lastReadAt.Some? then found.lastReadAt else gallery.lastReadAt,
      MergeChapters(found.chapters, gallery.chapters),
      if found.manga.Some? then found.manga else gallery.manga,
      if found.filtered.Some? then found.filtered else gallery.filtered)
  }

  /** Filtering distributes over concatenation: the incoming order is kept. */
  lemma {:induction false} NewChaptersAppend(known: seq<string>, a: seq<Chapter>, b: seq<Chapter>)
    ensures NewChapters(known, a + b) == NewChapters(known, a) + NewChapters(known, b)
  {
    if a == [] {
      assert a + b == b;
    } else {
      assert (a + b)[1..] == a[1..] + b;
      NewChaptersAppend(known, a[1..], b);
    }
  }

  /** Incoming chapters whose names are all known add nothing. */
  lemma {:induction false} NewChaptersOfKnown(known: seq<string>, incoming: seq<Chapter>)
    requires forall c :: c in incoming ==> c.name in known
    ensures NewChapters(known, incoming) == []
  {
    if incoming != [] {
      NewChaptersOfKnown(known, incoming[1..]);
    }
  }

  /** A list with unique names splits into a head whose name is not in the unique tail. */
  lemma DistinctTail(cs: seq<Chapter>)
    requires cs != [] && Distinct(Names(cs))
    ensures Distinct(Names(cs[1..]))
    ensures cs[0].name !in Names(cs[1..])
  {
    var rest := cs[1..];
    forall i, j | 0 <= i < j < |rest| ensures Names(rest)[i] != Names(rest)[j] {
      assert Names(cs)[i + 1] != Names(cs)[j + 1];
    }
    forall k | 0 <= k < |rest| ensures Names(rest)[k] != cs[0].name {
      assert Names(cs)[0] != Names(cs)[k + 1];
    }
  }

  /** Putting a chapter with a new name in front of a list with unique names keeps them unique. */
  lemma DistinctCons(c: Chapter, tail: seq<Chapter>)
    requires Distinct(Names(tail))
    requires forall d :: d in tail ==> d.name != c.name
    ensures Distinct(Names([c] + tail))
  {
    var r := [c] + tail;
    forall i, j | 0 <= i < j < |r| ensures Names(r)[i] != Names(r)[j] {
      if i == 0 {
        assert r[j] in tail;
      } else {
        assert Names(r)[i] == Names(tail)[i - 1] && Names(r)[j] == Names(tail)[j - 1];
      }
    }
  }

  /** Distinct incoming names stay distinct after filtering. */
  lemma {:induction false} NewChaptersDistinct(known: seq<string>, incoming: seq<Chapter>)
    requires Distinct(Names(incoming))
    ensures Distinct(Names(NewChapters(known, incoming)))
  {
    if incoming != [] {
      var rest := incoming[1..];
      DistinctTail(incoming);
      NewChaptersDistinct(known, rest);
      var tail := NewChapters(known, rest);
      forall d | d in tail ensures d.name != incoming[0].name {
        var j :| 0 <= j < |rest| && rest[j] == d;
        assert Names(rest)[j] == d.name;
      }
      if incoming[0].name !in known {
        assert NewChapters(known, incoming) == [incoming[0]] + tail;
        DistinctCons(incoming[0], tail);
      }
    }
  }

  /**
   * A merge keeps the stored chapters untouched at the front, and after them holds exactly
   * the incoming chapters whose names the stored ones lack.
   */
  lemma MergeChaptersShape(found: seq<Chapter>, incoming: seq<Chapter>)
    ensures var m := MergeChapters(found, incoming);
      && m[..|found|] == found
      && forall c :: c in m[|found|..] <==> c in incoming && c.name !in Names(found)
  {
    var m := MergeChapters(found, incoming);
    assert m[..|found|] == found;
    assert m[|found|..] == NewChapters(Names(found), incoming);
  }

  /** Upserting the same chapters again adds nothing. */
  lemma MergeChaptersIdempotent(found: seq<Chapter>, incoming: seq<Chapter>)
    ensures MergeChapters(MergeChapters(found, incoming), incoming) == MergeChapters(found, incoming)
  {
    var m := MergeChapters(found, incoming);
    forall c | c in incoming ensures c.name in Names(m) {
      var k: nat;
      if c.name in Names(found) {
        k :| k < |found| && Names(found)[k] == c.name;
        assert m[k] == found[k];
      } else {
        assert c in NewChapters(Names(found), incoming);
        var j :| 0 <= j < |NewChapters(Names(found), incoming)| && NewChapters(Names(found), incoming)[j] == c;
        k := |found| + j;
        assert m[k] == c;
      }
      assert Names(m)[k] == c.name;
    }
    NewChaptersOfKnown(Names(m), incoming);
  }

  /** Chapter names stay unique when they were unique in each input. */
  lemma MergeChaptersDistinct(found: seq<Chapter>, incoming: seq<Chapter>)
    requires Distinct(Names(found)) && Distinct(Names(incoming))
    ensures Distinct(Names(MergeChapters(found, incoming)))
  {
    var added := NewChapters(Names(found), incoming);
    NewChaptersDistinct(Names(found), incoming);
    var m := MergeChapters(found, incoming);
    forall i, j | 0 <= i < j < |m| ensures Names(m)[i] != Names(m)[j] {
      if j < |found| {
        assert Names(found)[i] != Names(found)[j];
      } else if i >= |found| {
        assert Names(added)[i - |found|] != Names(added)[j - |found|];
      } else {
        assert m[j] in added;
        assert Names(found)[i] in Names(found);
      }
    }
  }

  /** Duplicates within the incoming list itself are not filtered out. */
  lemma MergeKeepsIncomingDuplicates(c: Chapter)
    ensures MergeChapters([], [c, c]) == [c, c]
  {
    assert NewChapters([], [c, c]) == [c] + NewChapters([], [c]);
  }

  /**
   * The merged record is the stored one with the merged chapters, except that an optional
   * property the stored record lacks is taken from the incoming one.
   */
  lemma MergeGalleryKeepsStored(gallery: Gallery, found: Gallery)
    ensures var m := MergeGallery(gallery, found);
      && m.(chapters := found.chapters, lastReadAt := found.lastReadAt, manga := found.manga, filtered := found.filtered) == found
      && m.chapters == MergeChapters(found.chapters, gallery.chapters)
      && m.lastReadAt == (if found.lastReadAt.None? then gallery.lastReadAt else found.lastReadAt)
      && m.manga == (if found.manga.None? then gallery.manga else found.manga)
      && m.filtered == (if found.filtered.None? then gallery.filtered else found.filtered)
  {
  }

  /**
   * `upsertGallery` on the store's state: update the first stored gallery with the same name
   * by the merge, or add the gallery as it is when there is none.
   */
  function UpsertStep(cfg: Storage.Config<Gallery>, s: Storage.State<Gallery>, gallery: Gallery, writeFails: bool): Storage.Outcome<Gallery>
  {
    match FindByName(s.collection, gallery.name)
    case Some(i) => Storage.UpdateStep(cfg, s, MergeGallery(gallery, s.collection[i]), writeFails)
    case None => Storage.AddStep(cfg, s, gallery, writeFails)
  }

  /** `upsertGallery`. */
  method UpsertGallery(store: Storage.Storage<Gallery>, gallery: Gallery, writeFails: bool) returns (ok: bool)
    requires store.Valid()
    modifies store
    ensures store.Valid()
    ensures Storage.Outcome(store.Snapshot(), ok) == UpsertStep(store.cfg, old(store.Snapshot()), gallery, writeFails)
  {
    var galleries := store.collection;
    var found := FindByName(galleries, gallery.name);
    if found.Some? {
      ok := store.UpdateItem(MergeGallery(gallery, galleries[found.value]), writeFails);
    } else {
      ok := store.AddItem(gallery, writeFails);
    }
  }

  /** A store whose items are galleries keyed by their `id` property. */
  ghost predicate KeyedById(cfg: Storage.Config<Gallery>)
  {
    forall g: Gallery :: cfg.idOf(g) == g.id
  }

  /**
   * Without a same-named gallery the upsert adds the input unchanged (apart from the id the
   * store gives it).
   */
  lemma UpsertOfNewNameAdds(cfg: Storage.Config<Gallery>, s: Storage.State<Gallery>, gallery: Gallery, writeFails: bool)
    requires forall g :: g in s.collection ==> g.name != gallery.name
    ensures UpsertStep(cfg, s, gallery, writeFails) == Storage.AddStep(cfg, s, gallery, writeFails)
  {
  }

  /**
   * With a same-named gallery already stored, the upsert's update finds it: the call fails
   * only when its record write does, and the merged record replaces the stored one in place.
   */
  lemma UpsertOfKnownNameUpdates(cfg: Storage.Config<Gallery>, s: Storage.State<Gallery>, gallery: Gallery, writeFails: bool)
    requires KeyedById(cfg)
    requires FindByName(s.collection, gallery.name).Some?
    ensures var i := FindByName(s.collection, gallery.name).value;
      var o := UpsertStep(cfg, s, gallery, writeFails);
      && (o.ok <==> !writeFails)
      && (o.ok ==> exists k :: 0 <= k < |s.collection| && s.collection[k].id == s.collection[i].id
                     && o.next.collection == s.collection[k := MergeGallery(gallery, s.collection[i])])
  {
    var i := FindByName(s.collection, gallery.name).value;
    var merged := MergeGallery(gallery, s.collection[i]);
    assert UpsertStep(cfg, s, gallery, writeFails) == Storage.UpdateStep(cfg, s, merged, writeFails);
    assert cfg.idOf(s.collection[i]) == cfg.idOf(merged);
    Storage.UpdateStepSpec(cfg, s, merged, writeFails);
  }

  // ----- read state -------------------------------------------------------------------

  /** `readChapter`'s new record: the chapter at the index marked read, and the read time set. */
  function ReadChapterGallery(gallery: Gallery, chapterIndex: nat, now: string): Gallery
    requires chapterIndex < |gallery.chapters|
  {
    gallery.(lastReadAt := Some(now),
             chapters := gallery.chapters[chapterIndex := gallery.chapters[chapterIndex].(read := true)])
  }

  /** `bulkChapterMarkAsRead`'s chapters: a chapter is read if it was or its name is listed. */
  function MarkChapters(chapters: seq<Chapter>, names: seq<string>): seq<Chapter>
  {
    seq(|chapters|, i requires 0 <= i < |chapters| => chapters[i].(read := chapters[i].read || chapters[i].name in names))
  }

  /** `bulkChapterMarkAsRead`'s new record. */
  function MarkAsReadGallery(gallery: Gallery, names: seq<string>, now: string): Gallery
  {
    gallery.(lastReadAt := Some(now), chapters := MarkChapters(gallery.chapters, names))
  }

  /**
   * Reading a chapter keeps the count, marks that chapter read without touching its other
   * fields, leaves every other chapter and property alone, and records the read time.
   */
  lemma ReadChapterSpec(gallery: Gallery, chapterIndex: nat, now: string)
    requires chapterIndex < |gallery.chapters|
    ensures var g := ReadChapterGallery(gallery, chapterIndex, now);
      && |g.chapters| == |gallery.chapters|
      && g.chapters[chapterIndex].read
      && g.chapters[chapterIndex].(read := gallery.chapters[chapterIndex].read) == gallery.chapters[chapterIndex]
      && (forall j :: 0 <= j < |g.chapters| && j != chapterIndex ==> g.chapters[j] == gallery.chapters[j])
      && g.lastReadAt == Some(now)
      && g.(chapters := gallery.chapters, lastReadAt := gallery.lastReadAt) == gallery
  {
  }

  /**
   * Marking never un-reads: a chapter ends read exactly when it was read or is listed, and
   * names, paths, pages, current page and order are kept.
   */
  lemma MarkAsReadSpec(gallery: Gallery, names: seq<string>, now: string)
    ensures var g := MarkAsReadGallery(gallery, names, now);
      && |g.chapters| == |gallery.chapters|
      && (forall i :: 0 <= i < |g.chapters| ==>
            && (g.chapters[i].read <==> gallery.chapters[i].read || gallery.chapters[i].name in names)
            && g.chapters[i].(read := gallery.chapters[i].read) == gallery.chapters[i])
      && g.lastReadAt == Some(now)
      && g.(chapters := gallery.chapters, lastReadAt := gallery.lastReadAt) == gallery
  {
  }

  /** Marking the same names twice is marking them once. */
  lemma MarkAsReadIdempotent(gallery: Gallery, names: seq<string>, now: string)
    ensures MarkAsReadGallery(MarkAsReadGallery(gallery, names, now), names, now) == MarkAsReadGallery(gallery, names, now)
  {
    var once := MarkChapters(gallery.chapters, names);
    assert MarkChapters(once, names) == once;
  }

  /** With unique chapter names, reading a chapter is marking its name as read. */
  lemma ReadChapterIsMarkAsRead(gallery: Gallery, chapterIndex: nat, now: string)
    requires chapterIndex < |gallery.chapters|
    requires Distinct(Names(gallery.chapters))
    ensures ReadChapterGallery(gallery, chapterIndex, now) ==
      MarkAsReadGallery(gallery, [gallery.chapters[chapterIndex].name], now)
  {
    var a := ReadChapterGallery(gallery, chapterIndex, now).chapters;
    var b := MarkChapters(gallery.chapters, [gallery.chapters[chapterIndex].name]);
    forall j | 0 <= j < |a| ensures a[j] == b[j] {
      if j != chapterIndex {
        if j < chapterIndex {
          assert Names(gallery.chapters)[j] != Names(gallery.chapters)[chapterIndex];
        } else {
          assert Names(gallery.chapters)[chapterIndex] != Names(gallery.chapters)[j];
        }
      }
    }
  }

  // ----- bulkChapterDelete ------------------------------------------------------------

  /** The chapters whose names are not listed, in order. */
  function Kept(chapters: seq<Chapter>, names: seq<string>): (r: seq<Chapter>)
    ensures forall c :: c in r <==> c in chapters && c.name !in names
  {
    if chapters == [] then []
    else
      assert chapters == [chapters[0]] + chapters[1..];
      (if chapters[0].name in names then [] else [chapters[0]]) + Kept(chapters[1..], names)
  }

  /**
   * `items.filter(it => names.includes(it.name))` for any record with a name: the items
   * whose names are listed, in order.
   */
  function WithNames<C(!new)>(items: seq<C>, nameOf: C -> string, names: seq<string>): (r: seq<C>)
    ensures forall c :: c in r <==> c in items && nameOf(c) in names
  {
    if items == [] then []
    else
      assert items == [items[0]] + items[1..];
      (if nameOf(items[0]) in names then [items[0]] else []) + WithNames(items[1..], nameOf, names)
  }

  /** Filtering by name distributes over concatenation: the old order is kept. */
  lemma {:induction false} WithNamesAppend<C(!new)>(a: seq<C>, b: seq<C>, nameOf: C -> string, names: seq<string>)
    ensures WithNames(a + b, nameOf, names) == WithNames(a, nameOf, names) + WithNames(b, nameOf, names)
  {
    if a == [] {
      assert a + b == b;
    } else {
      assert (a + b)[1..] == a[1..] + b;
      WithNamesAppend(a[1..], b, nameOf, names);
    }
  }

  function ChapterName(c: Chapter): string { c.name }

  /** The chapters whose names are listed, in order. */
  function Removed(chapters: seq<Chapter>, names: seq<string>): seq<Chapter>
  {
    WithNames(chapters, ChapterName, names)
  }

  /** Together the kept and the removed chapters are the old ones, nothing lost or doubled. */
  lemma {:induction false} KeptAndRemovedPartition(chapters: seq<Chapter>, names: seq<string>)
    ensures multiset(Kept(chapters, names)) + multiset(Removed(chapters, names)) == multiset(chapters)
    ensures |Kept(chapters, names)| + |Removed(chapters, names)| == |chapters|
  {
    if chapters != [] {
      KeptAndRemovedPartition(chapters[1..], names);
      assert chapters == [chapters[0]] + chapters[1..];
    }
  }

  /** Keeping distributes over concatenation: the old order is kept. */
  lemma {:induction false} KeptAppend(a: seq<Chapter>, b: seq<Chapter>, names: seq<string>)
    ensures Kept(a + b, names) == Kept(a, names) + Kept(b, names)
  {
    if a == [] {
      assert a + b == b;
    } else {
      assert (a + b)[1..] == a[1..] + b;
      KeptAppend(a[1..], b, names);
    }
  }

  /** `bulkChapterDelete`'s new record: only the chapters list changes. */
  function DeleteChaptersGallery(gallery: Gallery, names: seq<string>): Gallery
  {
    gallery.(chapters := Kept(gallery.chapters, names))
  }

  /** The directory of each removed chapter, under the galleries root. */
  function DeletePaths(root: string, gallery: Gallery, names: seq<string>): (r: seq<string>)
    ensures |r| == |Removed(gallery.chapters, names)|
  {
    var removed := Removed(gallery.chapters, names);
    seq(|removed|, i requires 0 <= i < |removed| => root + "/" + gallery.path + "/" + removed[i].path)
  }

  /**
   * `bulkChapterDelete`: one directory delete per removed chapter (not awaited, so a failed
   * one changes nothing and is not reported), then the store update.
   */
  method BulkChapterDelete(store: Storage.Storage<Gallery>, disk: FileSystem.Disk, root: string,
                           gallery: Gallery, names: seq<string>, writeFails: bool) returns (ok: bool)
    requires store.Valid()
    modifies store, disk
    ensures store.Valid()
    ensures disk.dirs == FileSystem.DeleteEach(old(disk.dirs), DeletePaths(root, gallery, names))
    ensures Storage.Outcome(store.Snapshot(), ok) ==
      Storage.UpdateStep(store.cfg, old(store.Snapshot()), DeleteChaptersGallery(gallery, names), writeFails)
  {
    var newGallery := DeleteChaptersGallery(gallery, names);
    var paths := DeletePaths(root, gallery, names);
    for i := 0 to |paths|
      invariant disk.dirs == FileSystem.DeleteEach(old(disk.dirs), paths[..i])
      invariant store.Snapshot() == old(store.Snapshot()) && store.Valid()
    {
      assert paths[..i + 1][..i] == paths[..i];
      var _ := disk.Delete(paths[i]);
    }
    assert paths[..|paths|] == paths;
    ok := store.UpdateItem(newGallery, writeFails);
  }

  /** `readChapter`. */
  method ReadChapter(store: Storage.Storage<Gallery>, gallery: Gallery, chapterIndex: nat, now: string, writeFails: bool)
    returns (ok: bool)
    requires chapterIndex < |gallery.chapters|
    requires store.Valid()
    modifies store
    ensures store.Valid()
    ensures Storage.Outcome(store.Snapshot(), ok) ==
      Storage.UpdateStep(store.cfg, old(store.Snapshot()), ReadChapterGallery(gallery, chapterIndex, now), writeFails)
  {
    ok := store.UpdateItem(ReadChapterGallery(gallery, chapterIndex, now), writeFails);
  }

  /** `bulkChapterMarkAsRead`. */
  method BulkChapterMarkAsRead(store: Storage.Storage<Gallery>, gallery: Gallery, names: seq<string>, now: string, writeFails: bool)
    returns (ok: bool)
    requires store.Valid()
    modifies store
    ensures store.Valid()
    ensures Storage.Outcome(store.Snapshot(), ok) ==
      Storage.UpdateStep(store.cfg, old(store.Snapshot()), MarkAsReadGallery(gallery, names, now), writeFails)
  {
    ok := store.UpdateItem(MarkAsReadGallery(gallery, names, now), writeFails);
  }

  /** `updateLastReadAt`: set the read time and update; the outcome is discarded. */
  method UpdateLastReadAt(store: Storage.Storage<Gallery>, gallery: Gallery, now: string, writeFails: bool)
    requires store.Valid()
    modifies store
    ensures store.Valid()
    ensures store.Snapshot() ==
      Storage.UpdateStep(store.cfg, old(store.Snapshot()), gallery.(lastReadAt := Some(now)), writeFails).next
  {
    var _ := store.UpdateItem(gallery.(lastReadAt := Some(now)), writeFails);
  }

  // ----- queries ----------------------------------------------------------------------

  /** The position of the first unread chapter. */
  function FirstUnread(chapters: seq<Chapter>): (r: Option<nat>)
    ensures r.Some? ==> r.value < |chapters| && !chapters[r.value].read
    ensures r.Some? ==> forall j :: 0 <= j < r.value ==> chapters[j].read
    ensures r.None? ==> forall j :: 0 <= j < |chapters| ==> chapters[j].read
  {
    if chapters == [] then None
    else if !chapters[0].read then Some(0)
    else match FirstUnread(chapters[1..])
      case None => None
      case Some(i) => Some(i + 1)
  }

  /**
   * `getGalleryLastReadChapter`: the first unread chapter, or else the first chapter; none
   * only for a gallery without chapters.
   */
  function LastReadChapter(gallery: Gallery): (r: Option<Chapter>)
    ensures r.None? <==> gallery.chapters == []
    ensures forall i :: (0 <= i < |gallery.chapters| && !gallery.chapters[i].read &&
      forall j :: 0 <= j < i ==> gallery.chapters[j].read) ==> r == Some(gallery.chapters[i])
    ensures (forall j :: 0 <= j < |gallery.chapters| ==> gallery.chapters[j].read) && gallery.chapters != [] ==>
      r == Some(gallery.chapters[0])
  {
    match FirstUnread(gallery.chapters)
    case Some(i) => Some(gallery.chapters[i])
    case None => if gallery.chapters == [] then None else Some(gallery.chapters[0])
  }

  /** Reading the chapter it points at moves the first-unread position past it. */
  lemma ReadingFirstUnreadAdvances(gallery: Gallery, now: string)
    requires FirstUnread(gallery.chapters).Some?
    ensures var i := FirstUnread(gallery.chapters).value;
      var after := FirstUnread(ReadChapterGallery(gallery, i, now).chapters);
      after.None? || after.value > i
  {
  }

  /** `replace(/[^0-9]/gi, '')`: the digits of the string, in order. */
  function DigitsOnly(s: string): (r: string)
    ensures AllDigits(r) && |r| <= |s|
  {
    if s == [] then "" else (if IsDigit(s[0]) then [s[0]] else []) + DigitsOnly(s[1..])
  }

  /** A string of digits is left as it is. */
  lemma {:induction false} DigitsOnlyOfDigits(s: string)
    requires AllDigits(s)
    ensures DigitsOnly(s) == s
  {
    if s != [] {
      DigitsOnlyOfDigits(s[1..]);
    }
  }

  /**
   * `getGalleryLastReadChapterNumber`: `parseInt` of the digits before the first `-`;
   * `None` stands for NaN.
   */
  function ChapterNumber(chapter: Chapter): Option<nat>
  {
    ParseDigits(DigitsOnly(BeforeFirst(chapter.name, '-')))
  }

  /** A chapter named by a numeral, a dash and anything gets that number. */
  lemma ChapterNumberOfNumberedName(n: nat, rest: string, chapter: Chapter)
    requires chapter.name == NatToString(n) + "-" + rest
    ensures ChapterNumber(chapter) == Some(n)
  {
    var digits := NatToString(n);
    assert '-' !in digits;
    SplitAtFirstSeparator(digits, '-', rest);
    assert digits + ['-'] + rest == chapter.name;
    DigitsOnlyOfDigits(digits);
    DigitsValueOfNatToString(n);
  }

  /** A name with no digit before its first dash gives NaN, even when digits follow it. */
  lemma ChapterNumberNeedsLeadingDigits()
    ensures ChapterNumber(Chapter("Chapter-1", "chapter-1", [], false, 0)) == None
  {
    SplitAtFirstSeparator("Chapter", '-', "1");
    assert "Chapter" + ['-'] + "1" == "Chapter-1";
    assert DigitsOnly("Chapter") == "";
  }

  // ----- getGalleryDetail ---------------------------------------------------------------

  /** The description with every `<br>`, then every `<br/>`, turned into a line break. */
  function Sanitize(description: string): string
  {
    ReplaceAll(ReplaceAll(description, "<br>", "\n"), "<br/>", "\n")
  }

  /** No break tag of either spelling is left. */
  lemma SanitizeRemovesBreaks(description: string)
    ensures !Occurs("<br>", Sanitize(description)) && !Occurs("<br/>", Sanitize(description))
  {
    var once := ReplaceAll(description, "<br>", "\n");
    ReplaceAllRemovesPattern(description, "<br>", "\n");
    ReplaceAllRemovesPattern(once, "<br/>", "\n");
    if Occurs("<br>", Sanitize(description)) {
      var i :| 0 <= i <= |Sanitize(description)| && OccursAt("<br>", Sanitize(description), i);
      var j := OccurrenceInOutputWasInInput(once, "<br/>", "\n", "<br>", i);
      assert false;
    }
  }

  /** A line, when its field is set. */
  function When(present: bool, line: string): seq<string>
  {
    if present then [line] else []
  }

  /** The detail lines, in their fixed order, each only for a truthy field. */
  function DetailLines(gallery: Gallery): seq<string>
  {
    match gallery.manga
    case None => []
    case Some(m) =>
      When(m.favorites != 0, "Favorites: " + NumberToString(m.favorites))
      + When(m.status.Some?, "Status: " + if m.status.Some? then StatusLabel(m.status.value) else "")
      + When(m.averageScore != 0, "Average Score: " + NumberToString(m.averageScore))
      + When(m.description != "", "Description: " + Sanitize(m.description))
  }

  /** `getGalleryDetail`: push each present line, then join them with line breaks. */
  method GalleryDetail(gallery: Gallery) returns (text: string)
    ensures text == Join(DetailLines(gallery), "\n")
  {
    var infos: seq<string> := [];
    if gallery.manga.Some? {
      var m := gallery.manga.value;
      if m.favorites != 0 {
        infos := infos + ["Favorites: " + NumberToString(m.favorites)];
      }
      if m.status.Some? {
        infos := infos + ["Status: " + StatusLabel(m.status.value)];
      }
      if m.averageScore != 0 {
        infos := infos + ["Average Score: " + NumberToString(m.averageScore)];
      }
      if m.description != "" {
        infos := infos + ["Description: " + Sanitize(m.description)];
      }
      assert infos == DetailLines(gallery);
    }
    text := Join(infos, "\n");
  }

  /**
   * One line per truthy field and none for the others, in the fixed order favorites,
   * status, score, description: a gallery without manga has no detail, a score of 0 gives
   * no score line, and the description, when present, comes last and carries no break tags.
   */
  lemma DetailLinesSpec(gallery: Gallery)
    ensures gallery.manga.None? ==> DetailLines(gallery) == [] && Join(DetailLines(gallery), "\n") == ""
    ensures gallery.manga.Some? ==>
      var m := gallery.manga.value;
      var lines := DetailLines(gallery);
      var k0 := if m.favorites != 0 then 1 else 0;
      var k1 := if m.status.Some? then 1 else 0;
      && |lines| == (if m.favorites != 0 then 1 else 0) + (if m.status.Some? then 1 else 0)
                    + (if m.averageScore != 0 then 1 else 0) + (if m.description != "" then 1 else 0)
      && (m.favorites != 0 ==> lines[0] == "Favorites: " + NumberToString(m.favorites))
      && (m.status.Some? ==> lines[k0] == "Status: " + StatusLabel(m.status.value))
      && (m.averageScore != 0 ==> lines[k0 + k1] == "Average Score: " + NumberToString(m.averageScore))
      && (m.averageScore == 0 <==> forall i :: 0 <= i < |lines| ==> !("Average Score: " <= lines[i]))
      && (m.description != "" ==>
            lines[|lines| - 1] == "Description: " + Sanitize(m.description)
            && !Occurs("<br>", Sanitize(m.description)) && !Occurs("<br/>", Sanitize(m.description)))
  {
    if gallery.manga.Some? {
      var m := gallery.manga.value;
      SanitizeRemovesBreaks(m.description);
      var lines := DetailLines(gallery);
      forall i | 0 <= i < |lines| && "Average Score: " <= lines[i] ensures m.averageScore != 0 {
        assert lines[i][0] == 'A';
      }
      if m.averageScore != 0 {
        var k := if m.favorites != 0 then 1 else 0;
        var k' := k + if m.status.Some? then 1 else 0;
        assert lines[k'] == "Average Score: " + NumberToString(m.averageScore);
        assert "Average Score: " <= lines[k'];
      }
    }
  }
}
