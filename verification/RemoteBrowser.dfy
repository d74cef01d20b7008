/** Paging through a remote directory listing with self-checking cursors. */
module RemoteBrowser {
  import opened Wrappers
  import opened Ordering
  import opened RemotePaths
  import opened Timestamps

  const MAX_USIZE: nat := 0xFFFF_FFFF_FFFF_FFFF

  datatype BrowseEntry = BrowseEntry(name: string, kind: char, size: Option<nat>, modifiedAt: string)

  datatype Page = Page(entries: seq<BrowseEntry>, nextCursor: Option<string>)

  predicate NameLe(left: BrowseEntry, right: BrowseEntry) { StringLe(left.name, right.name) }

  /******* Cursors *******/

  function MakeCursor(offset: nat, digest: string): string {
    "v1" + ['_'] + (Decimal(offset) + ['_'] + digest)
  }

  /** `str::parse::<usize>`: decimal digits, optionally after a plus sign, within 64 bits. */
  function ParseUsize(s: string): Option<nat> {
    var digits := if "+" <= s then s[1..] else s;
    if digits == "" then None
    else
      var value := FoldDigits(digits, 0);
      if value.Some? && value.value <= MAX_USIZE then value else None
  }

  function ParseCursor(cursor: Option<string>, expectedDigest: string): Option<nat> {
    if cursor.None? then Some(0)
    else
      var fields := Split(cursor.value, '_');
      if |fields| < 2 then None
      else
        var offset := ParseUsize(fields[1]);
        if offset.None? then None
        else if fields[0] == "v1" && |fields| == 3 && fields[2] == expectedDigest then offset
        else None
  }

  /** A cursor made for a listing parses back to its offset, and for no other digest. */
  lemma CursorRoundTrip(offset: nat, digest: string, expected: string)
    requires offset <= MAX_USIZE && '_' !in digest
    ensures ParseCursor(Some(MakeCursor(offset, digest)), expected) == if expected == digest then Some(offset) else None
  {
    DecimalReadsBack(offset);
    var text := Decimal(offset);
    assert '_' !in text && !("+" <= text);
    SplitWhole("v1", '_');
    SplitWhole(text, '_');
    SplitWhole(digest, '_');
    SplitAt(text, digest, '_');
    SplitAt("v1", text + ['_'] + digest, '_');
    assert Split(MakeCursor(offset, digest), '_') == ["v1", text, digest];
  }

  /** Nothing but such a text is a cursor: "v1", a number, and the very digest. */
  lemma CursorsAreExact(cursor: string, digest: string, n: nat)
    requires '_' !in digest
    ensures ParseCursor(Some(cursor), digest) == Some(n)
      <==> exists text :: '_' !in text && ParseUsize(text) == Some(n) && cursor == "v1" + ['_'] + (text + ['_'] + digest)
  {
    if ParseCursor(Some(cursor), digest) == Some(n) {
      var fields := Split(cursor, '_');
      JoinSplit(cursor, '_');
      NoSeparatorInside(cursor, '_');
      assert fields == [fields[0], fields[1], fields[2]] && fields[1] in fields;
      JoinThree("v1", fields[1], digest);
    }
    forall text | '_' !in text && ParseUsize(text) == Some(n) && cursor == "v1" + ['_'] + (text + ['_'] + digest)
      ensures ParseCursor(Some(cursor), digest) == Some(n)
    {
      SplitWhole("v1", '_');
      SplitWhole(text, '_');
      SplitWhole(digest, '_');
      SplitAt(text, digest, '_');
      SplitAt("v1", text + ['_'] + digest, '_');
      assert Split(cursor, '_') == ["v1", text, digest];
    }
  }

  lemma JoinThree(a: string, b: string, c: string)
    ensures Join([a, b, c], '_') == a + ['_'] + (b + ['_'] + c)
  {
    assert [a, b, c][1..] == [b, c] && [b, c][1..] == [c];
    assert Join([b, c], '_') == b + ['_'] + Join([c], '_');
    assert Join([c], '_') == c;
  }

  /** A number is a non-empty run of digits, perhaps after a plus sign, that fits 64 bits. */
  lemma NumbersAreExact(text: string, n: nat)
    ensures ParseUsize(text) == Some(n) <==>
      var digits := if text != "" && text[0] == '+' then text[1..] else text;
      digits != "" && n <= 0xFFFF_FFFF_FFFF_FFFF && FoldDigits(digits, 0) == Some(n)
  {
  }

  /******* Pages *******/

  /** A digest is the hex of eight bytes. */
  ghost predicate IsDigest(digest: seq<BrowseEntry> -> string) {
    forall entries :: '_' !in digest(entries)
  }

  function PageOf(entries: seq<BrowseEntry>, digest: string, offset: nat, limit: nat): Page
    requires offset <= |entries|
  {
    var end := if offset + limit < |entries| then offset + limit else |entries|;
    Page(entries[offset..end], if end < |entries| then Some(MakeCursor(end, digest)) else None)
  }

  /** `parse_listing` on the parsed records. */
  function ListPage(
    digest: seq<BrowseEntry> -> string, records: seq<BrowseEntry>, cursor: Option<string>, limit: nat): Option<Page>
  {
    var entries := Sort(NameLe, records);
    ListSorted(digest(entries), entries, cursor, limit)
  }

  function ListSorted(digest: string, entries: seq<BrowseEntry>, cursor: Option<string>, limit: nat): Option<Page> {
    var offset := ParseCursor(cursor, digest);
    if offset.None? || offset.value > |entries| then None
    else Some(PageOf(entries, digest, offset.value, limit))
  }

  /** Asking for page after page, each with the cursor the last one gave.  Every request lists
      the directory afresh: `listings[k]` is what the k-th request is told. */
  function Browse(
    digest: seq<BrowseEntry> -> string, listings: seq<seq<BrowseEntry>>, cursor: Option<string>, limit: nat)
    : Option<seq<BrowseEntry>>
  {
    if listings == [] then None else
    var page := ListPage(digest, listings[0], cursor, limit);
    if page.None? then None
    else if page.value.nextCursor.None? then Some(page.value.entries)
    else
      var rest := Browse(digest, listings[1..], page.value.nextCursor, limit);
      if rest.None? then None else Some(page.value.entries + rest.value)
  }

  predicate DistinctNames(records: seq<BrowseEntry>) {
    forall i, j | 0 <= i < j < |records| :: records[i].name != records[j].name
  }

  /** Every request is told the same records, in an order of its own. */
  predicate Unchanged(listings: seq<seq<BrowseEntry>>, records: seq<BrowseEntry>) {
    forall k | 0 <= k < |listings| :: multiset(listings[k]) == multiset(records)
  }

  /** For an unchanged directory, however each request happens to list it, following the cursors
      ends, and the pages together are the whole sorted listing, every entry once. */
  lemma BrowsingIsComplete(
    digest: seq<BrowseEntry> -> string, listings: seq<seq<BrowseEntry>>, records: seq<BrowseEntry>, limit: nat)
    requires IsDigest(digest) && limit >= 1 && |records| <= MAX_USIZE
    requires DistinctNames(records) && Unchanged(listings, records) && |listings| > |records|
    ensures var entries := Sort(NameLe, records);
      && Browse(digest, listings, None, limit) == Some(entries)
      && multiset(entries) == multiset(records)
      && forall i, j | 0 <= i < j < |entries| :: StringLe(entries[i].name, entries[j].name) && entries[i].name != entries[j].name
  {
    var entries := Sort(NameLe, records);
    SameMultisetSameElements(entries, records);
    NameLeIsPreorder();
    SortIsSorted(NameLe, records);
    forall k | 0 <= k < |listings| ensures Sort(NameLe, listings[k]) == entries {
      ListingOrderIsIrrelevant(records, listings[k]);
    }
    BrowsingFrom(digest, listings, entries, None, 0, limit);
    forall i, j | 0 <= i < j < |entries| ensures StringLe(entries[i].name, entries[j].name) && entries[i].name != entries[j].name {
      DistinctAfterSort(records, entries, i, j);
    }
    assert entries[0..] == entries;
  }

  lemma DistinctAfterSort(records: seq<BrowseEntry>, entries: seq<BrowseEntry>, i: nat, j: nat)
    requires DistinctNames(records) && multiset(entries) == multiset(records) && Sorted(NameLe, entries) && i < j < |entries|
    ensures StringLe(entries[i].name, entries[j].name) && entries[i].name != entries[j].name
  {
    SameMultisetSameElements(entries, records);
    NoRepeatsSurvivesReordering(records, entries);
    assert NameLe(entries[i], entries[j]) && entries[i] in records && entries[j] in records;
  }

  /** The order in which `find` lists a directory makes no difference. */
  lemma ListingOrderIsIrrelevant(records: seq<BrowseEntry>, relisted: seq<BrowseEntry>)
    requires DistinctNames(records) && multiset(records) == multiset(relisted)
    ensures Sort(NameLe, records) == Sort(NameLe, relisted)
  {
    var s := Sort(NameLe, records);
    NameLeIsPreorder();
    SortIsSorted(NameLe, records);
    SortIsSorted(NameLe, relisted);
    SameMultisetSameElements(s, records);
    forall i, j | 0 <= i < |s| && 0 <= j < |s| && NameLe(s[i], s[j]) && NameLe(s[j], s[i]) ensures s[i] == s[j] {
      StringLeTotal(s[i].name, s[j].name);
      assert s[i] in records && s[j] in records;
    }
    SortedIsUnique(NameLe, s, Sort(NameLe, relisted));
  }

  lemma NameLeIsPreorder()
    ensures TotalPreorder(NameLe)
  {
    forall x: BrowseEntry, y: BrowseEntry ensures NameLe(x, y) || NameLe(y, x) {
      StringLeTotal(x.name, y.name);
    }
    forall x: BrowseEntry, y: BrowseEntry, z: BrowseEntry | NameLe(x, y) && NameLe(y, z) ensures NameLe(x, z) {
      StringLeTransitive(x.name, y.name, z.name);
    }
  }

  /** Every request sorts what it is told into the same listing. */
  predicate AllSortTo(listings: seq<seq<BrowseEntry>>, entries: seq<BrowseEntry>) {
    forall k | 0 <= k < |listings| :: Sort(NameLe, listings[k]) == entries
  }

  /** From any cursor that names an offset, the rest of the listing follows. */
  lemma {:induction false} BrowsingFrom(
    digest: seq<BrowseEntry> -> string, listings: seq<seq<BrowseEntry>>, entries: seq<BrowseEntry>,
    cursor: Option<string>, offset: nat, limit: nat)
    requires IsDigest(digest) && limit >= 1 && offset <= |entries| <= MAX_USIZE
    requires AllSortTo(listings, entries) && |listings| > |entries| - offset
    requires ParseCursor(cursor, digest(entries)) == Some(offset)
    ensures Browse(digest, listings, cursor, limit) == Some(entries[offset..])
  {
    var page := PageOf(entries, digest(entries), offset, limit);
    assert ListPage(digest, listings[0], cursor, limit) == Some(page);
    if page.nextCursor.Some? {
      NextPage(entries, digest(entries), offset, limit);
      BrowsingFrom(digest, listings[1..], entries, page.nextCursor, offset + limit, limit);
    } else {
      assert page.entries == entries[offset..];
    }
  }

  lemma NextPage(entries: seq<BrowseEntry>, digest: string, offset: nat, limit: nat)
    requires offset <= |entries| <= MAX_USIZE && '_' !in digest
    requires PageOf(entries, digest, offset, limit).nextCursor.Some?
    ensures var page := PageOf(entries, digest, offset, limit);
      && offset + limit < |entries| && ParseCursor(page.nextCursor, digest) == Some(offset + limit)
      && entries[offset..] == page.entries + entries[offset + limit..]
  {
    CursorRoundTrip(offset + limit, digest, digest);
  }

  /** A cursor is refused when the listing it was made for has a different digest. */
  lemma StaleCursorIsRefused(
    digest: seq<BrowseEntry> -> string, before: seq<BrowseEntry>, after: seq<BrowseEntry>, offset: nat, limit: nat)
    requires IsDigest(digest) && offset <= MAX_USIZE
    requires digest(Sort(NameLe, before)) != digest(Sort(NameLe, after))
    ensures ListPage(digest, after, Some(MakeCursor(offset, digest(Sort(NameLe, before)))), limit).None?
  {
    CursorRoundTrip(offset, digest(Sort(NameLe, before)), digest(Sort(NameLe, after)));
  }
}
