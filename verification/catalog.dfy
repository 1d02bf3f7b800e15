/** The documentation catalog: turning the static chapter and topic tables into
    the navigation structure, and finding a topic in it by id. */
module Catalog {
  import opened Wrappers

  /** The root under which every topic's markdown file lives. */
  const DocsBasePath: string := "/src/docs"

  /** One entry of the static topic table: a markdown file and its title. */
  datatype TopicEntry = TopicEntry(file: string, title: string)

  /** A topic as the navigation uses it. */
  datatype Topic = Topic(id: string, title: string, file: string, path: string, order: nat)

  /** One entry of the chapter metadata table, keyed by the chapter key. */
  datatype ChapterMeta = ChapterMeta(key: string, title: string, order: int)

  /** A chapter of the built structure. */
  datatype Chapter = Chapter(id: string, title: string, order: int, topics: seq<Topic>)

  /** The static topic table: chapter key to its topic entries, in order. */
  type TopicMap = map<string, seq<TopicEntry>>

  function TopicId(chapterKey: string, file: string): string {
    chapterKey + "/" + file
  }

  function TopicPath(chapterKey: string, file: string): string {
    DocsBasePath + "/" + chapterKey + "/" + file
  }

  // ---------------------------------------------------------------------
  // fetchChapterTopics

  /** The topics of one chapter: one per table entry for the key (none for an
      unknown key), numbered by position, with id and path built from the
      key and the file name. */
  function ChapterTopics(topicMap: TopicMap, chapterKey: string): (topics: seq<Topic>)
    ensures chapterKey !in topicMap ==> topics == []
    ensures chapterKey in topicMap ==> |topics| == |topicMap[chapterKey]|
    ensures forall k :: 0 <= k < |topics| ==>
      var e := topicMap[chapterKey][k];
      topics[k].order == k && topics[k].title == e.title && topics[k].file == e.file &&
      topics[k].id == chapterKey + "/" + e.file &&
      topics[k].path == DocsBasePath + "/" + chapterKey + "/" + e.file
  {
    var entries := if chapterKey in topicMap then topicMap[chapterKey] else [];
    seq(|entries|, k requires 0 <= k < |entries| =>
      Topic(TopicId(chapterKey, entries[k].file), entries[k].title, entries[k].file,
            TopicPath(chapterKey, entries[k].file), k))
  }

  /** Splits a text at its first '/'. */
  function SplitAtSlash(s: string): (string, string) {
    if s == [] then ("", "")
    else if s[0] == '/' then ("", s[1..])
    else var (head, tail) := SplitAtSlash(s[1..]); ([s[0]] + head, tail)
  }

  /** An id gives back its chapter key and file, so two topics share an id
      only when they share both (chapter keys never contain '/'). */
  lemma {:induction false} TopicIdSplits(chapterKey: string, file: string)
    requires '/' !in chapterKey
    ensures SplitAtSlash(TopicId(chapterKey, file)) == (chapterKey, file)
  {
    if chapterKey == [] {
      assert TopicId(chapterKey, file) == "/" + file;
    } else {
      var id := TopicId(chapterKey, file);
      assert id[0] == chapterKey[0] != '/';
      assert id[1..] == TopicId(chapterKey[1..], file);
      TopicIdSplits(chapterKey[1..], file);
      assert [chapterKey[0]] + chapterKey[1..] == chapterKey;
    }
  }

  lemma TopicIdInjective(k1: string, f1: string, k2: string, f2: string)
    requires '/' !in k1 && '/' !in k2
    requires TopicId(k1, f1) == TopicId(k2, f2)
    ensures k1 == k2 && f1 == f2
  {
    TopicIdSplits(k1, f1);
    TopicIdSplits(k2, f2);
  }

  /** Every topic of a chapter: a non-empty id, and its path is the base path
      followed by the id. */
  ghost predicate WellFormedTopic(t: Topic) {
    t.id != "" && t.path == DocsBasePath + "/" + t.id
  }

  ghost predicate WellFormed(structure: seq<Chapter>) {
    forall i, j :: 0 <= i < |structure| && 0 <= j < |structure[i].topics| ==>
      WellFormedTopic(structure[i].topics[j])
  }

  lemma ChapterTopicsWellFormed(topicMap: TopicMap, chapterKey: string, k: nat)
    requires k < |ChapterTopics(topicMap, chapterKey)|
    ensures WellFormedTopic(ChapterTopics(topicMap, chapterKey)[k])
  {
    var e := topicMap[chapterKey][k];
    assert DocsBasePath + "/" + chapterKey + "/" + e.file == DocsBasePath + "/" + (chapterKey + "/" + e.file);
  }

  // ---------------------------------------------------------------------
  // Ordering chapters (the `sort` by metadata order)

  ghost predicate SortedByOrder(s: seq<ChapterMeta>) {
    forall i, j :: 0 <= i < j < |s| ==> s[i].order <= s[j].order
  }

  /** Inserts `m` before the first entry whose order is not below its own. */
  function Insert(m: ChapterMeta, s: seq<ChapterMeta>): (r: seq<ChapterMeta>)
    ensures multiset(r) == multiset(s) + multiset{m}
  {
    if s == [] || m.order <= s[0].order then [m] + s
    else
      assert s == [s[0]] + s[1..];
      [s[0]] + Insert(m, s[1..])
  }

  /** Inserting into a sorted list keeps it sorted. */
  lemma {:induction false} InsertSorted(m: ChapterMeta, s: seq<ChapterMeta>)
    requires SortedByOrder(s)
    ensures SortedByOrder(Insert(m, s))
    ensures |Insert(m, s)| == |s| + 1
    ensures Insert(m, s)[0] == m || (s != [] && Insert(m, s)[0] == s[0])
  {
    var r := Insert(m, s);
    if s == [] || m.order <= s[0].order {
      forall i, j | 0 <= i < j < |r| ensures r[i].order <= r[j].order {
        assert r[j] == s[j - 1];
        if i > 0 { assert r[i] == s[i - 1]; }
      }
    } else {
      var tail := Insert(m, s[1..]);
      InsertSorted(m, s[1..]);
      assert r == [s[0]] + tail;
      assert tail[0].order >= s[0].order;
      forall i, j | 0 <= i < j < |r| ensures r[i].order <= r[j].order {
        assert r[j] == tail[j - 1];
        if i > 0 { assert r[i] == tail[i - 1]; }
        else if j > 1 { assert tail[0].order <= tail[j - 1].order; }
      }
    }
  }

  /** The chapters ordered by their metadata order, as `Array.prototype.sort`
      with the comparator `a.order - b.order` leaves them. */
  function SortByOrder(s: seq<ChapterMeta>): (r: seq<ChapterMeta>)
    ensures multiset(r) == multiset(s)
    ensures SortedByOrder(r)
  {
    if s == [] then []
    else
      assert s == [s[0]] + s[1..];
      var rest := SortByOrder(s[1..]);
      InsertSorted(s[0], rest);
      Insert(s[0], rest)
  }

  // ---------------------------------------------------------------------
  // fetchDocsStructure

  function ChapterOf(topicMap: TopicMap, m: ChapterMeta): Chapter {
    Chapter(m.key, m.title, m.order, ChapterTopics(topicMap, m.key))
  }

  /** The structure built from chapters taken in the given order: each
      chapter that has topics, in that order. */
  function BuildChapters(metas: seq<ChapterMeta>, topicMap: TopicMap): seq<Chapter> {
    if metas == [] then []
    else
      var init := BuildChapters(metas[..|metas| - 1], topicMap);
      var m := metas[|metas| - 1];
      if |ChapterTopics(topicMap, m.key)| > 0 then init + [ChapterOf(topicMap, m)] else init
  }

  /** The structure the application navigates. */
  function DocsStructure(metadata: seq<ChapterMeta>, topicMap: TopicMap): seq<Chapter> {
    BuildChapters(SortByOrder(metadata), topicMap)
  }

  ghost predicate ChaptersSorted(structure: seq<Chapter>) {
    forall i, j :: 0 <= i < j < |structure| ==> structure[i].order <= structure[j].order
  }

  /** Each built chapter comes from one metadata entry, carries its key, title
      and order and that key's topics, and has at least one topic; every entry
      whose key has topics is built. */
  lemma {:induction false} BuildChaptersContents(metas: seq<ChapterMeta>, topicMap: TopicMap)
    ensures forall c :: c in BuildChapters(metas, topicMap) ==>
      |c.topics| > 0 && exists m :: m in metas && c == ChapterOf(topicMap, m)
    ensures forall m :: m in metas && |ChapterTopics(topicMap, m.key)| > 0 ==>
      ChapterOf(topicMap, m) in BuildChapters(metas, topicMap)
  {
    if metas != [] {
      var init := metas[..|metas| - 1];
      BuildChaptersContents(init, topicMap);
      assert metas == init + [metas[|metas| - 1]];
    }
  }

  lemma {:induction false} BuildChaptersSorted(metas: seq<ChapterMeta>, topicMap: TopicMap)
    requires SortedByOrder(metas)
    ensures ChaptersSorted(BuildChapters(metas, topicMap))
  {
    if metas != [] {
      var init := metas[..|metas| - 1];
      var last := metas[|metas| - 1];
      BuildChaptersSorted(init, topicMap);
      BuildChaptersContents(init, topicMap);
      var built := BuildChapters(init, topicMap);
      forall c | c in built
        ensures c.order <= last.order
      {
        var m :| m in init && c == ChapterOf(topicMap, m);
        var k :| 0 <= k < |init| && init[k] == m;
        assert metas[k] == m;
      }
    }
  }

  lemma {:induction false} BuildChaptersWellFormed(metas: seq<ChapterMeta>, topicMap: TopicMap)
    ensures WellFormed(BuildChapters(metas, topicMap))
  {
    if metas != [] {
      var m := metas[|metas| - 1];
      BuildChaptersWellFormed(metas[..|metas| - 1], topicMap);
      forall k | 0 <= k < |ChapterTopics(topicMap, m.key)|
        ensures WellFormedTopic(ChapterTopics(topicMap, m.key)[k])
      {
        ChapterTopicsWellFormed(topicMap, m.key, k);
      }
    }
  }

  /** The built structure: chapters in non-decreasing metadata order, only
      chapters with topics, each one built from its own metadata entry, and
      none of those left out. */
  lemma DocsStructureProperties(metadata: seq<ChapterMeta>, topicMap: TopicMap)
    ensures ChaptersSorted(DocsStructure(metadata, topicMap))
    ensures WellFormed(DocsStructure(metadata, topicMap))
    ensures forall c :: c in DocsStructure(metadata, topicMap) ==>
      |c.topics| > 0 && exists m :: m in metadata && c == ChapterOf(topicMap, m)
    ensures forall m :: m in metadata && |ChapterTopics(topicMap, m.key)| > 0 ==>
      ChapterOf(topicMap, m) in DocsStructure(metadata, topicMap)
  {
    var sorted := SortByOrder(metadata);
    BuildChaptersSorted(sorted, topicMap);
    BuildChaptersWellFormed(sorted, topicMap);
    BuildChaptersContents(sorted, topicMap);
    forall m | m in sorted ensures m in metadata {
      assert m in multiset(sorted);
    }
    forall m | m in metadata ensures m in sorted {
      assert m in multiset(metadata);
    }
  }

  /** The loop of `fetchDocsStructure`: walks the sorted chapters and appends
      each one that has topics. */
  method FetchDocsStructure(metadata: seq<ChapterMeta>, topicMap: TopicMap) returns (structure: seq<Chapter>)
    ensures structure == DocsStructure(metadata, topicMap)
    ensures ChaptersSorted(structure) && WellFormed(structure)
    ensures forall c :: c in structure ==> |c.topics| > 0
  {
    var chapters := SortByOrder(metadata);
    structure := [];
    for i := 0 to |chapters|
      invariant structure == BuildChapters(chapters[..i], topicMap)
    {
      var metadataEntry := chapters[i];
      var topics := ChapterTopics(topicMap, metadataEntry.key);
      assert chapters[..i + 1][..i] == chapters[..i];
      if |topics| > 0 {
        structure := structure + [Chapter(metadataEntry.key, metadataEntry.title, metadataEntry.order, topics)];
      }
    }
    assert chapters[..|chapters|] == chapters;
    DocsStructureProperties(metadata, topicMap);
  }

  // ---------------------------------------------------------------------
  // Finding a topic by id (the lookup in loadTopic)

  /** Some chapter of the structure has a topic with this id. */
  ghost predicate HasTopic(structure: seq<Chapter>, id: string) {
    exists i, j :: 0 <= i < |structure| && 0 <= j < |structure[i].topics| && structure[i].topics[j].id == id
  }

  /** `topics.find(t => t.id === id)`: the first topic with that id. */
  function FindTopic(topics: seq<Topic>, id: string): (r: Option<Topic>)
    ensures r.None? <==> forall j :: 0 <= j < |topics| ==> topics[j].id != id
    ensures r.Some? ==> exists j :: (0 <= j < |topics| && topics[j] == r.value && r.value.id == id &&
      forall j' :: 0 <= j' < j ==> topics[j'].id != id)
  {
    if topics == [] then None
    else if topics[0].id == id then Some(topics[0])
    else
      var r := FindTopic(topics[1..], id);
      assert r.Some? ==> exists j :: (1 <= j < |topics| && topics[j] == r.value && r.value.id == id &&
        forall j' :: 0 <= j' < j ==> topics[j'].id != id) by {
        if r.Some? {
          var j :| 0 <= j < |topics[1..]| && topics[1..][j] == r.value && r.value.id == id &&
            forall j' :: 0 <= j' < j ==> topics[1..][j'].id != id;
          assert topics[j + 1] == r.value;
          forall j' | 0 <= j' < j + 1 ensures topics[j'].id != id {
            if j' > 0 { assert topics[j'] == topics[1..][j' - 1]; }
          }
        }
      }
      r
  }

  /** The first topic with the id, searching chapters in structure order. */
  function FirstTopic(structure: seq<Chapter>, id: string): (r: Option<Topic>)
    ensures r.Some? ==> r.value.id == id
  {
    if structure == [] then None
    else
      match FindTopic(structure[0].topics, id)
      case Some(t) => Some(t)
      case None => FirstTopic(structure[1..], id)
  }

  /** The lookup finds nothing exactly when no chapter has the id. */
  lemma {:induction false} FirstTopicNone(structure: seq<Chapter>, id: string)
    ensures FirstTopic(structure, id).None? <==> !HasTopic(structure, id)
  {
    if structure != [] {
      FirstTopicNone(structure[1..], id);
      if HasTopic(structure, id) {
        var i, j :| 0 <= i < |structure| && 0 <= j < |structure[i].topics| && structure[i].topics[j].id == id;
        if i > 0 {
          assert structure[1..][i - 1].topics[j].id == id;
        }
      }
      if HasTopic(structure[1..], id) {
        var i, j :| 0 <= i < |structure[1..]| && 0 <= j < |structure[1..][i].topics| && structure[1..][i].topics[j].id == id;
        assert structure[i + 1].topics[j].id == id;
      }
    }
  }

  /** What the lookup finds is what `find` gives in some chapter, and every
      chapter before that one has no topic with the id. */
  lemma {:induction false} FirstTopicIsFirst(structure: seq<Chapter>, id: string)
    requires FirstTopic(structure, id).Some?
    ensures exists i :: (0 <= i < |structure| &&
      FindTopic(structure[i].topics, id) == FirstTopic(structure, id) &&
      forall i' :: 0 <= i' < i ==> FindTopic(structure[i'].topics, id).None?)
  {
    if FindTopic(structure[0].topics, id).None? {
      var rest := structure[1..];
      FirstTopicIsFirst(rest, id);
      var i :| 0 <= i < |rest| && FindTopic(rest[i].topics, id) == FirstTopic(rest, id) &&
        forall i' :: 0 <= i' < i ==> FindTopic(rest[i'].topics, id).None?;
      assert structure[i + 1] == rest[i];
      forall i' | 0 <= i' < i + 1 ensures FindTopic(structure[i'].topics, id).None? {
        if i' > 0 { assert structure[i'] == rest[i' - 1]; }
      }
    }
  }

  /** The lookup loop of `loadTopic`: chapters in order, the first topic with
      the id in each, stopping at the first chapter that has one. */
  method FindTopicPath(structure: seq<Chapter>, topicId: string) returns (topicPath: Option<string>)
    ensures topicPath.None? <==> !HasTopic(structure, topicId)
    ensures topicPath.None? <==> FirstTopic(structure, topicId).None?
    ensures topicPath.Some? ==>
      FirstTopic(structure, topicId).Some? && topicPath.value == FirstTopic(structure, topicId).value.path
  {
    topicPath := None;
    var i := 0;
    while i < |structure|
      invariant 0 <= i <= |structure|
      invariant FirstTopic(structure, topicId) == FirstTopic(structure[i..], topicId)
    {
      var topic := FindTopic(structure[i].topics, topicId);
      assert structure[i..][0] == structure[i];
      if topic.Some? {
        topicPath := Some(topic.value.path);
        break;
      }
      assert structure[i..][1..] == structure[i + 1..];
      i := i + 1;
    }
    FirstTopicNone(structure, topicId);
  }
}
