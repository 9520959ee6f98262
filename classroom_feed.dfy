/**
 * The course feed that `list_announcements` (and its legacy twin
 * `list_announcements_by_course`) builds from the two item lists the
 * Classroom API returns: tag and concatenate, sort newest first by the
 * `creationTime` text, keep three, and turn each into a titled entry whose
 * content lists its materials one line each.
 *
 * API items arrive as records: an absent key is `None`, and an absent
 * "materials" list is the empty sequence. Turning a timestamp into its
 * display form is the parameter `formatDate`, `None` where the date parser
 * raises.
 */
module ClassroomFeed {
  import opened Wrappers
  import opened PyText

  /** A JSON object whose values are strings. */
  type Obj = map<string, string>

  /** `material["driveFile"]`: its own "title", and the nested "driveFile" object that holds "id". */
  datatype DriveEntry = DriveEntry(title: Option<string>, file: Option<Obj>)

  /**
   * One entry of an item's "materials": which of the three keys it has, or
   * `Malformed` for an entry whose processing raises (it is logged and skipped).
   */
  datatype Material =
    | Material(driveFile: Option<DriveEntry>, youtubeVideo: Option<Obj>, link: Option<Obj>)
    | Malformed

  datatype Item = Item(creationTime: Option<string>, text: Option<string>, title: Option<string>,
                       description: Option<string>, materials: seq<Material>)

  /** The value written into `item["type"]`. */
  datatype Kind = Announcement | CourseWorkMaterial

  function KindName(k: Kind): string {
    match k
    case Announcement => "announcement"
    case CourseWorkMaterial => "courseWorkMaterial"
  }

  datatype Tagged = Tagged(kind: Kind, item: Item)

  /** The current module writes emoji labels and a "description" key; the legacy one mis-encoded labels and no description. */
  datatype Style = Current | Legacy

  /**
   * One formatted entry. `description` is `None` where the dictionary has no
   * such key (legacy style) and `Some(None)` where the key holds `None`.
   */
  datatype TopItem = TopItem(title: string, content: string, description: Option<Option<string>>,
                             postedDate: string, kind: string)

  // ----- merging and sorting -----

  /** The loop that sets `item["type"]` and appends each item. */
  function Tag(kind: Kind, items: seq<Item>): (r: seq<Tagged>)
    ensures |r| == |items| && forall i :: 0 <= i < |items| ==> r[i] == Tagged(kind, items[i])
  {
    seq(|items|, i requires 0 <= i < |items| => Tagged(kind, items[i]))
  }

  /** All announcements first, then all coursework materials, each list in its own order. */
  function Merge(announcements: seq<Item>, materials: seq<Item>): seq<Tagged> {
    Tag(Announcement, announcements) + Tag(CourseWorkMaterial, materials)
  }

  /** `x.get("creationTime", "")` */
  function Key(t: Tagged): string {
    t.item.creationTime.GetOr("")
  }

  /** Newest first: every key is at least every later key in Python's string order. */
  predicate SortedDesc(s: seq<Tagged>) {
    forall i, j :: 0 <= i < j < |s| ==> LexLe(Key(s[j]), Key(s[i]))
  }

  /** Places `x` after every element whose key is at least its own. */
  function Insert(x: Tagged, s: seq<Tagged>): seq<Tagged> {
    if s == [] then [x]
    else if LexLe(Key(x), Key(s[0])) then [s[0]] + Insert(x, s[1..])
    else [x] + s
  }

  /** `sort(key=..., reverse=True)`: a stable sort, newest first. */
  function SortDesc(xs: seq<Tagged>): seq<Tagged> {
    if xs == [] then [] else Insert(xs[|xs| - 1], SortDesc(xs[..|xs| - 1]))
  }

  lemma {:induction false} InsertPermutes(x: Tagged, s: seq<Tagged>)
    ensures multiset(Insert(x, s)) == multiset(s) + multiset{x}
  {
    if s != [] && LexLe(Key(x), Key(s[0])) {
      InsertPermutes(x, s[1..]);
      assert s == [s[0]] + s[1..];
    }
  }

  lemma TailSorted(s: seq<Tagged>)
    requires SortedDesc(s) && s != []
    ensures SortedDesc(s[1..])
  {
    forall i, j | 0 <= i < j < |s[1..]| ensures LexLe(Key(s[1..][j]), Key(s[1..][i])) {
      assert s[1..][i] == s[i + 1] && s[1..][j] == s[j + 1];
    }
  }

  /** A head at least as new as every element of a newest-first tail keeps the list newest first. */
  lemma ConsSorted(h: Tagged, t: seq<Tagged>)
    requires SortedDesc(t)
    requires forall j :: 0 <= j < |t| ==> LexLe(Key(t[j]), Key(h))
    ensures SortedDesc([h] + t)
  {
    var r := [h] + t;
    forall i, j | 0 <= i < j < |r| ensures LexLe(Key(r[j]), Key(r[i])) {
      if i > 0 {
        assert r[i] == t[i - 1] && r[j] == t[j - 1];
      } else {
        assert r[j] == t[j - 1];
      }
    }
  }

  lemma {:induction false} InsertSorted(x: Tagged, s: seq<Tagged>)
    requires SortedDesc(s)
    ensures SortedDesc(Insert(x, s))
  {
    if s == [] {
    } else if LexLe(Key(x), Key(s[0])) {
      TailSorted(s);
      InsertSorted(x, s[1..]);
      InsertPermutes(x, s[1..]);
      var t := Insert(x, s[1..]);
      forall j | 0 <= j < |t| ensures LexLe(Key(t[j]), Key(s[0])) {
        assert t[j] in multiset(t);
        if t[j] != x {
          assert t[j] in multiset(s[1..]);
          var m :| 0 <= m < |s[1..]| && s[1..][m] == t[j];
          assert s[m + 1] == t[j];
        }
      }
      ConsSorted(s[0], t);
      assert Insert(x, s) == [s[0]] + t;
    } else {
      LexLeTotal(Key(x), Key(s[0]));
      forall j | 0 <= j < |s| ensures LexLe(Key(s[j]), Key(x)) {
        if j > 0 { LexLeTransitive(Key(s[j]), Key(s[0]), Key(x)); }
      }
      ConsSorted(x, s);
    }
  }

  /** The sorted list is newest first and a permutation of its input. */
  lemma {:induction false} SortDescSortedPermutation(xs: seq<Tagged>)
    ensures SortedDesc(SortDesc(xs))
    ensures multiset(SortDesc(xs)) == multiset(xs)
  {
    if xs != [] {
      var n := |xs| - 1;
      SortDescSortedPermutation(xs[..n]);
      InsertSorted(xs[n], SortDesc(xs[..n]));
      InsertPermutes(xs[n], SortDesc(xs[..n]));
      assert xs == xs[..n] + [xs[n]];
    }
  }

  /** The elements whose key is `k`, in order. */
  function WithKey(k: string, s: seq<Tagged>): seq<Tagged> {
    if s == [] then []
    else (if Key(s[0]) == k then [s[0]] else []) + WithKey(k, s[1..])
  }

  lemma {:induction false} WithKeyAppend(k: string, a: seq<Tagged>, b: seq<Tagged>)
    ensures WithKey(k, a + b) == WithKey(k, a) + WithKey(k, b)
  {
    if a != [] {
      WithKeyAppend(k, a[1..], b);
      assert (a + b)[1..] == a[1..] + b;
    } else {
      assert a + b == b;
    }
  }

  lemma {:induction false} InsertWithKey(k: string, x: Tagged, s: seq<Tagged>)
    requires SortedDesc(s)
    ensures WithKey(k, Insert(x, s)) == WithKey(k, s) + (if Key(x) == k then [x] else [])
  {
    if s == [] {
    } else if LexLe(Key(x), Key(s[0])) {
      TailSorted(s);
      InsertWithKey(k, x, s[1..]);
      var t := Insert(x, s[1..]);
      var h := if Key(s[0]) == k then [s[0]] else [];
      var e := if Key(x) == k then [x] else [];
      assert Insert(x, s) == [s[0]] + t;
      assert ([s[0]] + t)[1..] == t;
      assert WithKey(k, [s[0]] + t) == h + WithKey(k, t);
      assert WithKey(k, s) == h + WithKey(k, s[1..]);
      assert h + (WithKey(k, s[1..]) + e) == (h + WithKey(k, s[1..])) + e;
    } else {
      assert Insert(x, s) == [x] + s;
      assert ([x] + s)[1..] == s;
      if Key(x) == k {
        NoneWithKey(k, s);
        assert WithKey(k, [x] + s) == [x] + WithKey(k, s);
      } else {
        assert WithKey(k, [x] + s) == WithKey(k, s);
        assert WithKey(k, s) + [] == WithKey(k, s);
      }
    }
  }

  /** In a newest-first list whose head is older than `k`, nothing has key `k`. */
  lemma {:induction false} NoneWithKey(k: string, s: seq<Tagged>)
    requires SortedDesc(s) && s != [] && !LexLe(k, Key(s[0]))
    ensures WithKey(k, s) == []
  {
    LexLeTotal(k, k);
    assert Key(s[0]) != k;
    if |s| == 1 {
      assert s[1..] == [];
    } else {
      TailSorted(s);
      assert LexLe(Key(s[1]), Key(s[0]));
      if LexLe(k, Key(s[1])) {
        LexLeTransitive(k, Key(s[1]), Key(s[0]));
      }
      NoneWithKey(k, s[1..]);
    }
  }

  /** Stability: the items sharing a creation time keep their merged order. */
  lemma {:induction false} SortDescStable(k: string, xs: seq<Tagged>)
    ensures WithKey(k, SortDesc(xs)) == WithKey(k, xs)
  {
    if xs != [] {
      var n := |xs| - 1;
      var s := SortDesc(xs[..n]);
      SortDescStable(k, xs[..n]);
      SortDescSortedPermutation(xs[..n]);
      InsertWithKey(k, xs[n], s);
      assert SortDesc(xs) == Insert(xs[n], s);
      WithKeySnoc(k, xs);
    }
  }

  lemma WithKeySnoc(k: string, xs: seq<Tagged>)
    requires xs != []
    ensures var n := |xs| - 1; WithKey(k, xs) == WithKey(k, xs[..n]) + (if Key(xs[n]) == k then [xs[n]] else [])
  {
    var n := |xs| - 1;
    assert xs == xs[..n] + [xs[n]];
    WithKeyAppend(k, xs[..n], [xs[n]]);
    assert WithKey(k, [xs[n]]) == (if Key(xs[n]) == k then [xs[n]] else []) + WithKey(k, []);
  }

  /** The first index whose key is older than `x`'s, or the length. */
  lemma {:induction false} InsertAt(x: Tagged, s: seq<Tagged>, j: nat)
    requires j <= |s|
    requires forall i :: 0 <= i < j ==> LexLe(Key(x), Key(s[i]))
    requires j == |s| || !LexLe(Key(x), Key(s[j]))
    ensures Insert(x, s) == s[..j] + [x] + s[j..]
  {
    if j > 0 {
      InsertAt(x, s[1..], j - 1);
      assert s[..j] == [s[0]] + s[1..][..j - 1];
      assert s[j..] == s[1..][j - 1..];
    }
  }

  /** The in-place `sort`, one insertion at a time: find the slot by a scan, then insert. */
  method SortByCreationTime(items: seq<Tagged>) returns (sorted: seq<Tagged>)
    ensures sorted == SortDesc(items)
    ensures SortedDesc(sorted) && multiset(sorted) == multiset(items)
  {
    sorted := [];
    var i := 0;
    while i < |items|
      invariant 0 <= i <= |items|
      invariant sorted == SortDesc(items[..i])
    {
      var x := items[i];
      var j := 0;
      while j < |sorted| && LexLe(Key(x), Key(sorted[j]))
        invariant 0 <= j <= |sorted|
        invariant forall m :: 0 <= m < j ==> LexLe(Key(x), Key(sorted[m]))
      {
        j := j + 1;
      }
      InsertAt(x, sorted, j);
      assert items[..i + 1][..i] == items[..i];
      sorted := sorted[..j] + [x] + sorted[j..];
      i := i + 1;
    }
    assert items[..i] == items;
    SortDescSortedPermutation(items);
  }

  // ----- formatting -----

  function Get(o: Obj, key: string, default: string): string {
    if key in o then o[key] else default
  }

  function DriveLabel(style: Style): string {
    match style
    case Current => "\U{1F4C4} Drive File: "
    case Legacy => "\U{00F0}\U{0178}\U{201C}\U{201E} Drive File: "
  }

  function VideoLabel(style: Style): string {
    match style
    case Current => "\U{1F3A5} YouTube Video: "
    case Legacy => "\U{00F0}\U{0178}\U{017D}\U{00A5} YouTube Video: "
  }

  function LinkLabel(style: Style): string {
    match style
    case Current => "\U{1F517} Link: "
    case Legacy => "\U{00F0}\U{0178}\U{201D}\U{2014} Link: "
  }

  function UnknownLine(style: Style): string {
    match style
    case Current => "\U{1F4E6} Unknown Material Type"
    case Legacy => "\U{00F0}\U{0178}\U{201C}\U{00A6} Unknown Material Type"
  }

  function DriveUrl(id: string): string {
    "https://drive.google.com/file/d/" + id + "/view"
  }

  /** A line of the material list: the label, the title, then the URL in parentheses. */
  function Titled(head: string, title: string, url: string): string {
    head + title + " (URL: " + url + ")"
  }

  /** `drive_file.get("driveFile", {}).get("id", "Unknown ID")`: the nested id, or the default. */
  function DriveFileId(d: DriveEntry): (id: string)
    ensures d.file.Some? && "id" in d.file.value ==> id == d.file.value["id"]
    ensures d.file.None? || "id" !in d.file.value ==> id == "Unknown ID"
  {
    match d.file
    case Some(f) => Get(f, "id", "Unknown ID")
    case None => "Unknown ID"
  }

  /** Which branch of the material loop an entry takes: the first key present, in the order drive, video, link. */
  datatype LineKind = DriveLine | VideoLine | LinkLine | UnknownKind

  function Priority(m: Material): LineKind
    requires m.Material?
  {
    if m.driveFile.Some? then DriveLine
    else if m.youtubeVideo.Some? then VideoLine
    else if m.link.Some? then LinkLine
    else UnknownKind
  }

  /** The line one material contributes; `None` for an entry whose processing raises. */
  function MaterialLine(style: Style, m: Material): (r: Option<string>)
    ensures r.None? <==> m.Malformed?
  {
    match m
    case Malformed => None
    case Material(drive, video, link) =>
      if drive.Some? then
        Some(Titled(DriveLabel(style), drive.value.title.GetOr("Untitled"), DriveUrl(DriveFileId(drive.value))))
      else if video.Some? then
        Some(Titled(VideoLabel(style), Get(video.value, "title", "Untitled"), Get(video.value, "alternateLink", "Unknown URL")))
      else if link.Some? then
        Some(Titled(LinkLabel(style), Get(link.value, "title", "Untitled"), Get(link.value, "url", "Unknown URL")))
      else Some(UnknownLine(style))
  }

  /**
   * The text of each branch: the drive file's title (default "Untitled")
   * and its view URL built from the nested id (default "Unknown ID"); the
   * video's and the link's title and URL, each defaulting to "Untitled" and
   * "Unknown URL"; and the fixed unknown-type line otherwise.
   */
  lemma MaterialLineText(style: Style, m: Material)
    ensures m.Material? && m.driveFile.Some? ==>
      var d := m.driveFile.value;
      MaterialLine(style, m) == Some(Titled(DriveLabel(style), d.title.GetOr("Untitled"), DriveUrl(DriveFileId(d))))
    ensures m.Material? && m.driveFile.None? && m.youtubeVideo.Some? ==>
      var v := m.youtubeVideo.value;
      MaterialLine(style, m) == Some(Titled(VideoLabel(style), Get(v, "title", "Untitled"), Get(v, "alternateLink", "Unknown URL")))
    ensures m.Material? && m.driveFile.None? && m.youtubeVideo.None? && m.link.Some? ==>
      var l := m.link.value;
      MaterialLine(style, m) == Some(Titled(LinkLabel(style), Get(l, "title", "Untitled"), Get(l, "url", "Unknown URL")))
    ensures m.Material? && m.driveFile.None? && m.youtubeVideo.None? && m.link.None? ==> MaterialLine(style, m) == Some(UnknownLine(style))
  {
  }

  /** Reads back which branch produced a line, from its first characters. */
  function KindOfLine(style: Style, line: string): Option<LineKind> {
    if |line| < 4 then None
    else match style
      case Current =>
        if line[0] == '\U{1F4C4}' then Some(DriveLine)
        else if line[0] == '\U{1F3A5}' then Some(VideoLine)
        else if line[0] == '\U{1F517}' then Some(LinkLine)
        else if line[0] == '\U{1F4E6}' then Some(UnknownKind)
        else None
      case Legacy =>
        if line[2] == '\U{201C}' && line[3] == '\U{201E}' then Some(DriveLine)
        else if line[2] == '\U{017D}' then Some(VideoLine)
        else if line[2] == '\U{201D}' then Some(LinkLine)
        else if line[2] == '\U{201C}' && line[3] == '\U{00A6}' then Some(UnknownKind)
        else None
  }

  /** The label a line of each kind starts with; the unknown line is its label alone. */
  function LabelOf(style: Style, k: LineKind): string {
    match k
    case DriveLine => DriveLabel(style)
    case VideoLine => VideoLabel(style)
    case LinkLine => LinkLabel(style)
    case UnknownKind => UnknownLine(style)
  }

  /** The kind of a line is read back from its label, whatever follows it. */
  lemma ReadLabel(style: Style, k: LineKind, rest: string)
    ensures KindOfLine(style, LabelOf(style, k) + rest) == Some(k)
  {
    var head := LabelOf(style, k);
    var line := head + rest;
    assert |head| >= 4;
    assert line[0] == head[0] && line[2] == head[2] && line[3] == head[3];
  }

  /** Each material's line is labelled by the first of driveFile, youtubeVideo, link that it has. */
  lemma MaterialLinePriority(style: Style, m: Material)
    requires m.Material?
    ensures KindOfLine(style, MaterialLine(style, m).value) == Some(Priority(m))
  {
    var line := MaterialLine(style, m).value;
    var k := Priority(m);
    var rest := line[|LabelOf(style, k)|..];
    assert line == LabelOf(style, k) + rest by {
      LabelStartsLine(style, m);
    }
    ReadLabel(style, k, rest);
  }

  lemma LabelStartsLine(style: Style, m: Material)
    requires m.Material?
    ensures |LabelOf(style, Priority(m))| <= |MaterialLine(style, m).value|
    ensures MaterialLine(style, m).value[..|LabelOf(style, Priority(m))|] == LabelOf(style, Priority(m))
  {
    match m
    case Material(drive, video, link) =>
      if drive.Some? {
        PrefixOf(DriveLabel(style), drive.value.title.GetOr("Untitled"), DriveUrl(DriveFileId(drive.value)));
      } else if video.Some? {
        PrefixOf(VideoLabel(style), Get(video.value, "title", "Untitled"), Get(video.value, "alternateLink", "Unknown URL"));
      } else if link.Some? {
        PrefixOf(LinkLabel(style), Get(link.value, "title", "Untitled"), Get(link.value, "url", "Unknown URL"));
      }
  }

  lemma PrefixOf(head: string, title: string, url: string)
    ensures |head| <= |Titled(head, title, url)| && Titled(head, title, url)[..|head|] == head
  {
    assert Titled(head, title, url) == head + (title + " (URL: " + url + ")");
  }

  /** The drive URL embeds the file id between a fixed prefix and "/view". */
  lemma DriveUrlId(id: string)
    ensures var u := DriveUrl(id); |u| == 37 + |id| && u[32..32 + |id|] == id
  {
  }

  /** The URL of a line sits right after the label, the title and " (URL: ". */
  lemma TitledUrl(head: string, title: string, url: string)
    ensures var start := |head| + |title| + 7;
      start + |url| <= |Titled(head, title, url)| && Titled(head, title, url)[start..start + |url|] == url
  {
    var start := |head| + |title| + 7;
    var front := head + title + " (URL: ";
    assert |front| == start;
    assert Titled(head, title, url) == front + url + ")";
    assert (front + url + ")")[start..start + |url|] == url;
  }

  /** A drive file's line carries the file id inside its view URL. */
  lemma DriveLineCarriesId(style: Style, m: Material)
    requires m.Material? && m.driveFile.Some?
    ensures var d := m.driveFile.value;
      var id := DriveFileId(d);
      var line := MaterialLine(style, m).value;
      var start := |DriveLabel(style)| + |d.title.GetOr("Untitled")| + 7 + 32;
      start + |id| <= |line| && line[start..start + |id|] == id
  {
    var d := m.driveFile.value;
    var id := DriveFileId(d);
    var url := DriveUrl(id);
    var title := d.title.GetOr("Untitled");
    var line := MaterialLine(style, m).value;
    var start := |DriveLabel(style)| + |title| + 7;
    MaterialLineText(style, m);
    assert line == Titled(DriveLabel(style), title, url);
    TitledUrl(DriveLabel(style), title, url);
    DriveUrlId(id);
    SliceOfSlice(line, start, start + |url|, 32, 32 + |id|);
  }

  lemma SliceOfSlice(s: string, lo: nat, hi: nat, a: nat, b: nat)
    requires lo <= hi <= |s| && a <= b <= hi - lo
    ensures s[lo..hi][a..b] == s[lo + a..lo + b]
  {
    assert forall i :: 0 <= i < b - a ==> s[lo..hi][a..b][i] == s[lo + a + i];
  }

  /** The material lines of one item, in order; a raising entry adds none. */
  function MaterialLines(style: Style, ms: seq<Material>): (r: seq<string>)
    ensures |r| <= |ms|
    ensures (forall i :: 0 <= i < |ms| ==> ms[i].Material?) ==> |r| == |ms|
  {
    if ms == [] then []
    else
      var n := |ms| - 1;
      assert forall i :: 0 <= i < n ==> ms[..n][i] == ms[i];
      MaterialLines(style, ms[..n]) + (match MaterialLine(style, ms[n]) case Some(l) => [l] case None => [])
  }

  /** The materials section is left out exactly when every entry raises. */
  lemma {:induction false} MaterialLinesEmpty(style: Style, ms: seq<Material>)
    ensures MaterialLines(style, ms) == [] <==> forall i :: 0 <= i < |ms| ==> ms[i].Malformed?
  {
    if ms != [] {
      var n := |ms| - 1;
      var init := ms[..n];
      MaterialLinesEmpty(style, init);
      assert forall i :: 0 <= i < n ==> init[i] == ms[i];
      if ms[n].Material? {
        assert MaterialLines(style, ms) == MaterialLines(style, init) + [MaterialLine(style, ms[n]).value];
      } else {
        assert MaterialLines(style, ms) == MaterialLines(style, init);
      }
    }
  }

  /** When no material raises, the lines are the materials' own lines, in order. */
  lemma {:induction false} MaterialLinesInOrder(style: Style, ms: seq<Material>)
    requires forall i :: 0 <= i < |ms| ==> ms[i].Material?
    ensures |MaterialLines(style, ms)| == |ms|
    ensures forall i :: 0 <= i < |ms| ==> MaterialLines(style, ms)[i] == MaterialLine(style, ms[i]).value
  {
    if ms != [] {
      var n := |ms| - 1;
      var init := ms[..n];
      MaterialLinesInOrder(style, init);
      var lines := MaterialLines(style, ms);
      MaterialLinesSnoc(style, init, ms[n]);
      assert init + [ms[n]] == ms;
      forall i | 0 <= i < |ms|
        ensures lines[i] == MaterialLine(style, ms[i]).value
      {
        if i < n {
          assert init[i] == ms[i];
        }
      }
    }
  }

  /** Appending one material appends its line, or nothing when it raises. */
  lemma MaterialLinesSnoc(style: Style, ms: seq<Material>, m: Material)
    ensures MaterialLines(style, ms + [m]) == MaterialLines(style, ms) + (match MaterialLine(style, m) case Some(l) => [l] case None => [])
  {
    assert (ms + [m])[..|ms|] == ms;
  }

  /** `for material in materials: try: ... materials_info.append(...) except: ...` */
  method CollectMaterialLines(style: Style, ms: seq<Material>) returns (lines: seq<string>)
    ensures lines == MaterialLines(style, ms)
  {
    lines := [];
    var i := 0;
    while i < |ms|
      invariant 0 <= i <= |ms|
      invariant lines == MaterialLines(style, ms[..i])
    {
      var line := MaterialLine(style, ms[i]);
      if line.Some? {
        lines := lines + [line.value];
      }
      MaterialLinesSnoc(style, ms[..i], ms[i]);
      assert ms[..i] + [ms[i]] == ms[..i + 1];
      i := i + 1;
    }
    assert ms[..i] == ms;
  }

  /** The text of an announcement or the title of a material, with its default. */
  function BaseContent(t: Tagged): (r: string)
    ensures t.kind.Announcement? ==> r == if t.item.text.Some? then t.item.text.value else "No content provided."
    ensures t.kind.CourseWorkMaterial? ==> r == if t.item.title.Some? then t.item.title.value else "No title provided."
  {
    match t.kind
    case Announcement => t.item.text.GetOr("No content provided.")
    case CourseWorkMaterial => t.item.title.GetOr("No title provided.")
  }

  const MaterialsHeading := "\n**Materials:**\n"

  /** The content with the materials section appended only when there is at least one line. */
  function WithMaterials(content: string, lines: seq<string>): (r: string)
    ensures lines == [] ==> r == content
    ensures lines != [] ==> r == content + MaterialsHeading + Join(lines, "\n")
  {
    if lines == [] then content else content + MaterialsHeading + Join(lines, "\n")
  }

  /** The word that opens an entry's title for each type. */
  function Heading(k: Kind): string {
    match k
    case Announcement => "Announcement"
    case CourseWorkMaterial => "Courseworkmaterial"
  }

  /**
   * An entry's content opens with the item's text or title, and gains the
   * materials section exactly when some material was processed without
   * raising.
   */
  lemma EntryContent(style: Style, t: Tagged)
    ensures var c := WithMaterials(BaseContent(t), MaterialLines(style, t.item.materials));
      && |BaseContent(t)| <= |c| && c[..|BaseContent(t)|] == BaseContent(t)
      && (c == BaseContent(t) <==> forall i :: 0 <= i < |t.item.materials| ==> t.item.materials[i].Malformed?)
  {
    var b := BaseContent(t);
    var lines := MaterialLines(style, t.item.materials);
    MaterialLinesEmpty(style, t.item.materials);
    if lines != [] {
      var tail := MaterialsHeading + Join(lines, "\n");
      assert b + MaterialsHeading + Join(lines, "\n") == b + tail;
      assert |tail| > 0;
      assert (b + tail)[..|b|] == b;
    }
  }

  /** `f"{item['type'].capitalize()} {index}"` */
  function EntryTitle(kind: Kind, index: nat): (r: string)
    ensures r == Heading(kind) + " " + IntToString(index)
  {
    CapitalizedKindName(kind);
    Capitalize(KindName(kind)) + " " + IntToString(index)
  }

  /** `capitalize()` of the two type names; the inner capitals of "courseWorkMaterial" are lowered too. */
  lemma CapitalizedKindName(kind: Kind)
    ensures Capitalize(KindName(kind)) == Heading(kind)
  {
    if kind.Announcement? {
      CapitalizedAnnouncement(kind);
    } else {
      CapitalizedCourseWorkMaterial(kind);
    }
  }

  lemma CapitalizedAnnouncement(kind: Kind)
    requires kind.Announcement?
    ensures Capitalize(KindName(kind)) == "Announcement"
  {
    var s := KindName(kind);
    LowerAllAt(s[1..]);
    var c := Capitalize(s);
    assert |c| == 12;
    assert c[0] == 'A' && c[1] == 'n' && c[2] == 'n' && c[3] == 'o' && c[4] == 'u' && c[5] == 'n';
    assert c[6] == 'c' && c[7] == 'e' && c[8] == 'm' && c[9] == 'e' && c[10] == 'n' && c[11] == 't';
  }

  lemma CapitalizedCourseWorkMaterial(kind: Kind)
    requires kind.CourseWorkMaterial?
    ensures Capitalize(KindName(kind)) == "Courseworkmaterial"
  {
    var s := KindName(kind);
    var t := "Courseworkmaterial";
    assert s[..6] == "course" && t[..6] == "Course";
    assert s[6..10] == "Work" && t[6..10] == "work";
    assert s[10..] == "Material" && t[10..] == "material";
    forall i | 1 <= i < |s| ensures t[i] == LowerAscii(s[i]) {
      if i < 6 {
        assert s[i] == s[..6][i] && t[i] == t[..6][i];
      } else if i < 10 {
        assert s[i] == s[6..10][i - 6] && t[i] == t[6..10][i - 6];
      } else {
        assert s[i] == s[10..][i - 10] && t[i] == t[10..][i - 10];
      }
    }
    CapitalizeChars(s, t);
  }

  /** `posted_date`: the formatted creation time, "Unknown" when it is absent or empty; `None` when parsing raises. */
  function PostedDate(creationTime: Option<string>, formatDate: string -> Option<string>): (r: Option<string>)
    ensures creationTime.GetOr("") == "" ==> r == Some("Unknown")
    ensures creationTime.GetOr("") != "" ==> r == formatDate(creationTime.value)
  {
    var ct := creationTime.GetOr("");
    if ct != "" then formatDate(ct) else Some("Unknown")
  }

  /** One entry of `top_items`, numbered `index`; `None` when its date cannot be parsed. */
  function FormatItem(style: Style, index: nat, t: Tagged, formatDate: string -> Option<string>): (r: Option<TopItem>)
    ensures r.None? <==> PostedDate(t.item.creationTime, formatDate).None?
    ensures r.Some? ==> && r.value.title == EntryTitle(t.kind, index)
                        && r.value.kind == KindName(t.kind)
                        && r.value.postedDate == PostedDate(t.item.creationTime, formatDate).value
                        && (style.Legacy? <==> r.value.description.None?)
    ensures r.Some? ==> r.value.content == WithMaterials(BaseContent(t), MaterialLines(style, t.item.materials))
    ensures r.Some? && style.Current? ==> r.value.description == Some(t.item.description)
  {
    match PostedDate(t.item.creationTime, formatDate)
    case None => None
    case Some(posted) =>
      var content := WithMaterials(BaseContent(t), MaterialLines(style, t.item.materials));
      var description := if style.Current? then Some(t.item.description) else None;
      Some(TopItem(EntryTitle(t.kind, index), content, description, posted, KindName(t.kind)))
  }

  /** `FormatItem` with the style and the date formatter fixed. */
  function Formatter(style: Style, formatDate: string -> Option<string>): (nat, Tagged) -> Option<TopItem> {
    (index: nat, t: Tagged) => FormatItem(style, index, t, formatDate)
  }

  /** The entries for `items` numbered from `first`; `None` if any of them raises. */
  function FormatFrom(items: seq<Tagged>, first: nat, format: (nat, Tagged) -> Option<TopItem>): (r: Option<seq<TopItem>>)
    ensures r.Some? ==> |r.value| == |items|
    ensures r.Some? ==> forall k :: 0 <= k < |items| ==> format(first + k, items[k]) == Some(r.value[k])
    ensures r.None? <==> exists k :: 0 <= k < |items| && format(first + k, items[k]).None?
  {
    if items == [] then Some([])
    else
      var rest := FormatFrom(items[1..], first + 1, format);
      assert forall k :: 1 <= k < |items| ==> items[1..][k - 1] == items[k];
      match format(first, items[0])
      case None => None
      case Some(e) =>
        match rest
        case None =>
          assert exists k :: 1 <= k < |items| && format(first + k, items[k]).None? by {
            var k :| 0 <= k < |items[1..]| && format(first + 1 + k, items[1..][k]).None?;
            assert items[1..][k] == items[k + 1];
          }
          None
        case Some(es) => Some([e] + es)
  }

  /** When every entry formats, `FormatFrom` is exactly those entries in order. */
  lemma FormatFromAll(items: seq<Tagged>, first: nat, format: (nat, Tagged) -> Option<TopItem>, entries: seq<TopItem>)
    requires |entries| == |items|
    requires forall j :: 0 <= j < |items| ==> format(first + j, items[j]) == Some(entries[j])
    ensures FormatFrom(items, first, format) == Some(entries)
  {
    var r := FormatFrom(items, first, format);
    assert r.Some?;
    assert forall j :: 0 <= j < |items| ==> r.value[j] == entries[j];
    assert r.value == entries;
  }

  /** The formatted prefix of `items` grows by one entry. */
  lemma FormattedPrefixGrows(items: seq<Tagged>, k: nat, format: (nat, Tagged) -> Option<TopItem>,
                             entries: seq<TopItem>, e: TopItem)
    requires |entries| == k < |items| && format(1 + k, items[k]) == Some(e)
    requires forall j :: 0 <= j < k ==> format(1 + j, items[j]) == Some(entries[j])
    ensures forall j :: 0 <= j < k + 1 ==> format(1 + j, items[j]) == Some((entries + [e])[j])
  {
    forall j | 0 <= j < k + 1
      ensures format(1 + j, items[j]) == Some((entries + [e])[j])
    {
      if j < k {
        assert (entries + [e])[j] == entries[j];
      }
    }
  }

  /** One entry that raises makes the whole of `FormatFrom` raise. */
  lemma FormatFromFails(items: seq<Tagged>, first: nat, format: (nat, Tagged) -> Option<TopItem>, k: nat)
    requires k < |items| && format(first + k, items[k]).None?
    ensures FormatFrom(items, first, format).None?
  {
  }

  function Min(a: int, b: int): int {
    if a < b then a else b
  }

  /** `all_items[:3]` after the sort: the three newest. */
  function TopThree(announcements: seq<Item>, materials: seq<Item>): (r: seq<Tagged>)
    ensures |r| == Min(3, |announcements| + |materials|)
  {
    var sorted := SortDesc(Merge(announcements, materials));
    SortDescSortedPermutation(Merge(announcements, materials));
    assert |sorted| == |multiset(sorted)| == |Merge(announcements, materials)|;
    sorted[..Min(3, |sorted|)]
  }

  /** The feed body of `list_announcements`: the numbered entries, or `None` where a date raises. */
  function Feed(style: Style, announcements: seq<Item>, materials: seq<Item>, formatDate: string -> Option<string>): Option<seq<TopItem>> {
    FormatFrom(TopThree(announcements, materials), 1, Formatter(style, formatDate))
  }

  /**
   * The kept items are newest first, each was among the merged items, and
   * no merged item left out is newer than a kept one.
   */
  lemma TopThreeNewest(announcements: seq<Item>, materials: seq<Item>)
    ensures var top := TopThree(announcements, materials);
      var sorted := SortDesc(Merge(announcements, materials));
      && SortedDesc(top)
      && multiset(top) <= multiset(Merge(announcements, materials))
      && top == sorted[..|top|]
      && forall i, j :: 0 <= i < |top| <= j < |sorted| ==> LexLe(Key(sorted[j]), Key(top[i]))
  {
    var all := Merge(announcements, materials);
    var sorted := SortDesc(all);
    SortDescSortedPermutation(all);
    var n := Min(3, |sorted|);
    assert sorted == sorted[..n] + sorted[n..];
    assert multiset(sorted) == multiset(sorted[..n]) + multiset(sorted[n..]);
  }

  /** The feed holds min(3, n) entries, numbered from 1 in sorted order, each titled and typed after its item. */
  lemma FeedEntries(style: Style, announcements: seq<Item>, materials: seq<Item>, formatDate: string -> Option<string>)
    requires Feed(style, announcements, materials, formatDate).Some?
    ensures var top := TopThree(announcements, materials);
      var entries := Feed(style, announcements, materials, formatDate).value;
      && |entries| == Min(3, |announcements| + |materials|)
      && forall k :: 0 <= k < |entries| ==>
           && entries[k].title == EntryTitle(top[k].kind, k + 1)
           && entries[k].kind == KindName(top[k].kind)
           && entries[k].postedDate == PostedDate(top[k].item.creationTime, formatDate).value
           && entries[k].content == WithMaterials(BaseContent(top[k]), MaterialLines(style, top[k].item.materials))
           && entries[k].description == (if style.Current? then Some(top[k].item.description) else None)
  {
    FormattedEntries(style, TopThree(announcements, materials), formatDate);
  }

  /** Entry `k` of a formatted list is item `k` formatted under the number `k + 1`. */
  lemma FormattedEntries(style: Style, top: seq<Tagged>, formatDate: string -> Option<string>)
    ensures FormatFrom(top, 1, Formatter(style, formatDate)).Some? ==>
      var entries := FormatFrom(top, 1, Formatter(style, formatDate)).value;
      && |entries| == |top|
      && forall k :: 0 <= k < |entries| ==>
           && entries[k].title == EntryTitle(top[k].kind, k + 1)
           && entries[k].kind == KindName(top[k].kind)
           && entries[k].postedDate == PostedDate(top[k].item.creationTime, formatDate).value
           && entries[k].content == WithMaterials(BaseContent(top[k]), MaterialLines(style, top[k].item.materials))
           && entries[k].description == (if style.Current? then Some(top[k].item.description) else None)
  {
    var format := Formatter(style, formatDate);
    if FormatFrom(top, 1, format).Some? {
      var entries := FormatFrom(top, 1, format).value;
      forall k | 0 <= k < |entries|
        ensures entries[k].title == EntryTitle(top[k].kind, k + 1)
        ensures entries[k].kind == KindName(top[k].kind)
        ensures entries[k].postedDate == PostedDate(top[k].item.creationTime, formatDate).value
        ensures entries[k].content == WithMaterials(BaseContent(top[k]), MaterialLines(style, top[k].item.materials))
        ensures entries[k].description == (if style.Current? then Some(top[k].item.description) else None)
      {
        assert format(1 + k, top[k]) == Some(entries[k]);
        assert format(1 + k, top[k]) == FormatItem(style, k + 1, top[k], formatDate);
        FormattedFields(style, k + 1, top[k], formatDate, entries[k]);
      }
    }
  }

  lemma FormattedFields(style: Style, index: nat, t: Tagged, formatDate: string -> Option<string>, e: TopItem)
    ensures FormatItem(style, index, t, formatDate) == Some(e) ==>
      && e.title == EntryTitle(t.kind, index)
      && e.kind == KindName(t.kind)
      && e.postedDate == PostedDate(t.item.creationTime, formatDate).value
      && e.content == WithMaterials(BaseContent(t), MaterialLines(style, t.item.materials))
      && e.description == (if style.Current? then Some(t.item.description) else None)
  {
  }

  /** The feed is empty exactly when both fetched lists are. */
  lemma FeedEmpty(style: Style, announcements: seq<Item>, materials: seq<Item>, formatDate: string -> Option<string>)
    ensures Feed(style, announcements, materials, formatDate) == Some([]) <==> announcements == [] && materials == []
  {
    var top := TopThree(announcements, materials);
    if announcements == [] && materials == [] {
      assert top == [];
    }
  }

  /** A date formatter that never raises makes the whole feed succeed. */
  lemma FeedTotal(style: Style, announcements: seq<Item>, materials: seq<Item>, formatDate: string -> Option<string>)
    requires forall s :: formatDate(s).Some?
    ensures Feed(style, announcements, materials, formatDate).Some?
  {
    var top := TopThree(announcements, materials);
    var format := Formatter(style, formatDate);
    forall k | 0 <= k < |top|
      ensures format(1 + k, top[k]).Some?
    {
      assert format(1 + k, top[k]) == FormatItem(style, 1 + k, top[k], formatDate);
    }
  }

  /** The two loops that set `item["type"]` and append to `all_items`. */
  method MergeItems(announcements: seq<Item>, materials: seq<Item>) returns (all: seq<Tagged>)
    ensures all == Merge(announcements, materials)
  {
    all := [];
    for i := 0 to |announcements|
      invariant all == Tag(Announcement, announcements[..i])
    {
      all := all + [Tagged(Announcement, announcements[i])];
    }
    assert announcements[..|announcements|] == announcements;
    for i := 0 to |materials|
      invariant all == Tag(Announcement, announcements) + Tag(CourseWorkMaterial, materials[..i])
    {
      all := all + [Tagged(CourseWorkMaterial, materials[i])];
    }
    assert materials[..|materials|] == materials;
  }

  /** The loop over `enumerate(top, start=1)` that appends to `top_items`; `None` where an entry raises. */
  method FormatTop(style: Style, top: seq<Tagged>, formatDate: string -> Option<string>) returns (r: Option<seq<TopItem>>)
    ensures r == FormatFrom(top, 1, Formatter(style, formatDate))
  {
    ghost var format := Formatter(style, formatDate);
    var entries: seq<TopItem> := [];
    var k := 0;
    while k < |top|
      invariant 0 <= k <= |top| && |entries| == k
      invariant forall j :: 0 <= j < k ==> format(1 + j, top[j]) == Some(entries[j])
    {
      var entry := FormatEntry(style, k + 1, top[k], formatDate);
      assert entry == format(1 + k, top[k]);
      if entry.None? {
        FormatFromFails(top, 1, format, k);
        return None;
      }
      FormattedPrefixGrows(top, k, format, entries, entry.value);
      entries := entries + [entry.value];
      k := k + 1;
    }
    FormatFromAll(top, 1, format, entries);
    r := Some(entries);
  }

  /** `list_announcements` from the fetched lists to `top_items`: merge, sort, keep three, format. */
  method AssembleFeed(style: Style, announcements: seq<Item>, materials: seq<Item>, formatDate: string -> Option<string>)
    returns (r: Option<seq<TopItem>>)
    ensures r == Feed(style, announcements, materials, formatDate)
  {
    var all := MergeItems(announcements, materials);
    var sorted := SortByCreationTime(all);
    var top := sorted[..Min(3, |sorted|)];
    r := FormatTop(style, top, formatDate);
  }

  /** The body of the formatting loop for one item. */
  method FormatEntry(style: Style, index: nat, t: Tagged, formatDate: string -> Option<string>) returns (r: Option<TopItem>)
    ensures r == FormatItem(style, index, t, formatDate)
  {
    var posted := PostedDate(t.item.creationTime, formatDate);
    if posted.None? {
      return None;
    }
    var content := BaseContent(t);
    var lines := CollectMaterialLines(style, t.item.materials);
    if lines != [] {
      content := content + MaterialsHeading + Join(lines, "\n");
    }
    var description := if style.Current? then Some(t.item.description) else None;
    r := Some(TopItem(EntryTitle(t.kind, index), content, description, posted.value, KindName(t.kind)));
  }
}
