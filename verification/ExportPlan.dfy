/** Collecting the lesson plans of an export from three overlapping sources, writing the
    archive, and the manifest of what was written. */
module ExportPlan {
  import opened Wrappers
  import opened ExportNaming

  /** A file in a user's directory; `included` if it is a file within the dates. */
  datatype DirFile = DirFile(name: string, included: bool)
  datatype UserDir = UserDir(user: nat, files: seq<DirFile>)
  datatype ReportRow = ReportRow(id: nat, user: nat, filename: string, upload: Option<nat>, slug: string)
  datatype UploadRow = UploadRow(id: nat, user: nat, filename: string, slug: string)

  /** A collected lesson plan with the key it is looked up by. */
  datatype Item = Item(user: nat, file: string, number: Number, slug: string)

  function EntryOf(i: Item): Entry { Plan(i.user, i.number, i.slug) }

  function ReportItem(r: ReportRow): Item {
    Item(r.user, r.filename, if r.upload.Some? then ByUpload(r.upload.value) else ByReport(r.id), r.slug)
  }

  function UploadItem(u: UploadRow): Item { Item(u.user, u.filename, ByUpload(u.id), u.slug) }

  /** What the database promises: ids are unique, an upload has at most one report. */
  predicate UniqueRows(reports: seq<ReportRow>, uploads: seq<UploadRow>) {
    && (forall i, j | 0 <= i < j < |reports| ::
          reports[i].id != reports[j].id && (reports[i].upload.Some? ==> reports[i].upload != reports[j].upload))
    && (forall i, j | 0 <= i < j < |uploads| :: uploads[i].id != uploads[j].id)
  }

  predicate UniqueDirs(dirs: seq<UserDir>) {
    && (forall i, j | 0 <= i < j < |dirs| :: dirs[i].user != dirs[j].user)
    && (forall k | 0 <= k < |dirs| :: forall i, j | 0 <= i < j < |dirs[k].files| :: dirs[k].files[i].name != dirs[k].files[j].name)
  }

  /** No file twice under its own name, and no two items of one user with one number. */
  predicate DistinctItems(items: seq<Item>) {
    forall i, j | 0 <= i < j < |items| ::
      items[i].user == items[j].user ==> items[i].file != items[j].file && items[i].number != items[j].number
  }

  predicate Has(items: seq<Item>, user: nat, file: string) {
    exists i | i in items :: i.user == user && i.file == file
  }

  predicate HasUpload(items: seq<Item>, id: nat) { exists i | i in items :: i.number == ByUpload(id) }

  lemma AddItem(items: seq<Item>, item: Item)
    requires DistinctItems(items) && !Has(items, item.user, item.file)
    requires forall i | i in items && i.user == item.user :: i.number != item.number
    ensures DistinctItems(items + [item])
  {
    forall k | 0 <= k < |items| && items[k].user == item.user
      ensures items[k].file != item.file && items[k].number != item.number
    {
      assert items[k] in items;
    }
  }

  lemma HasMore(items: seq<Item>, item: Item, user: nat, file: string)
    ensures Has(items + [item], user, file) <==> Has(items, user, file) || (item.user == user && item.file == file)
  {
    assert item in items + [item];
    assert forall i | i in items :: i in items + [item];
  }

  // ------------------------------------------------------------ what to collect

  /** First source: the files of a user's directory, numbered within it. */
  function DirItems(d: UserDir, n: nat): seq<Item>
    requires n <= |d.files|
  {
    if n == 0 then []
    else if d.files[n - 1].included then
      DirItems(d, n - 1) + [Item(d.user, d.files[n - 1].name, ByOrdinal(n), d.files[n - 1].name)]
    else DirItems(d, n - 1)
  }

  function FileItems(dirs: seq<UserDir>): seq<Item> {
    if dirs == [] then []
    else FileItems(dirs[..|dirs| - 1]) + DirItems(dirs[|dirs| - 1], |dirs[|dirs| - 1].files|)
  }

  /** Second source: the reports whose lesson plan is not among the items yet. */
  function WithReports(items: seq<Item>, reports: seq<ReportRow>): seq<Item> {
    if reports == [] then items
    else
      var r := reports[|reports| - 1];
      var before := WithReports(items, reports[..|reports| - 1]);
      if Has(before, r.user, r.filename) then before else before + [ReportItem(r)]
  }

  /** Third source: the uploads that neither their id nor their name has brought in. */
  function WithUploads(items: seq<Item>, uploads: seq<UploadRow>): seq<Item> {
    if uploads == [] then items
    else
      var u := uploads[|uploads| - 1];
      var before := WithUploads(items, uploads[..|uploads| - 1]);
      if HasUpload(before, u.id) || Has(before, u.user, u.filename) then before else before + [UploadItem(u)]
  }

  function Collected(dirs: seq<UserDir>, reports: seq<ReportRow>, uploads: seq<UploadRow>): seq<Item> {
    WithUploads(WithReports(FileItems(dirs), reports), uploads)
  }

  lemma {:induction false} DirItemsAre(d: UserDir, n: nat, i: Item)
    requires n <= |d.files| && i in DirItems(d, n)
    ensures i.user == d.user && i.number.ByOrdinal? && 1 <= i.number.id <= n && i.file == d.files[i.number.id - 1].name
  {
    if n > 0 && i in DirItems(d, n - 1) {
      DirItemsAre(d, n - 1, i);
    }
  }

  lemma {:induction false} DirItemsDistinct(d: UserDir, n: nat)
    requires n <= |d.files| && forall i, j | 0 <= i < j < |d.files| :: d.files[i].name != d.files[j].name
    ensures DistinctItems(DirItems(d, n))
  {
    if n > 0 {
      DirItemsDistinct(d, n - 1);
      forall i | i in DirItems(d, n - 1) ensures i.number.ByOrdinal? && i.number.id < n && i.file != d.files[n - 1].name {
        DirItemsAre(d, n - 1, i);
      }
    }
  }

  lemma {:induction false} FileItemsAre(dirs: seq<UserDir>, i: Item)
    requires i in FileItems(dirs)
    ensures i.number.ByOrdinal? && exists k :: 0 <= k < |dirs| && i.user == dirs[k].user
  {
    var n := |dirs| - 1;
    if i in FileItems(dirs[..n]) {
      FileItemsAre(dirs[..n], i);
      var k :| 0 <= k < n && i.user == dirs[..n][k].user;
      assert i.user == dirs[k].user;
    } else {
      DirItemsAre(dirs[n], |dirs[n].files|, i);
    }
  }

  lemma {:induction false} FileItemsDistinct(dirs: seq<UserDir>)
    requires UniqueDirs(dirs)
    ensures DistinctItems(FileItems(dirs))
  {
    if dirs != [] {
      var n := |dirs| - 1;
      FileItemsDistinct(dirs[..n]);
      DirItemsDistinct(dirs[n], |dirs[n].files|);
      forall i | i in FileItems(dirs[..n]) ensures i.user != dirs[n].user {
        FileItemsAre(dirs[..n], i);
      }
      forall i | i in DirItems(dirs[n], |dirs[n].files|) ensures i.user == dirs[n].user {
        DirItemsAre(dirs[n], |dirs[n].files|, i);
      }
    }
  }

  /** Items from files and reports, no upload or report yet in two. */
  lemma {:induction false} WithReportsAre(items: seq<Item>, reports: seq<ReportRow>, i: Item)
    requires i in WithReports(items, reports)
    ensures i in items || exists k :: 0 <= k < |reports| && i == ReportItem(reports[k])
  {
    if reports != [] {
      var n := |reports| - 1;
      if i in WithReports(items, reports[..n]) {
        WithReportsAre(items, reports[..n], i);
        if i !in items {
          var k :| 0 <= k < n && i == ReportItem(reports[..n][k]);
          assert i == ReportItem(reports[k]);
        }
      }
    }
  }

  lemma {:induction false} WithReportsDistinct(items: seq<Item>, reports: seq<ReportRow>)
    requires DistinctItems(items) && (forall i | i in items :: i.number.ByOrdinal?) && UniqueRows(reports, [])
    ensures DistinctItems(WithReports(items, reports))
  {
    if reports != [] {
      var n := |reports| - 1;
      var r, before := reports[n], WithReports(items, reports[..n]);
      WithReportsDistinct(items, reports[..n]);
      if !Has(before, r.user, r.filename) {
        forall i | i in before ensures i.number != ReportItem(r).number {
          WithReportsAre(items, reports[..n], i);
          if i !in items {
            var k :| 0 <= k < n && i == ReportItem(reports[..n][k]);
            assert reports[k].id != reports[n].id;
          }
        }
        AddItem(before, ReportItem(r));
      }
    }
  }

  lemma {:induction false} WithUploadsDistinct(items: seq<Item>, uploads: seq<UploadRow>)
    requires DistinctItems(items)
    ensures DistinctItems(WithUploads(items, uploads))
  {
    if uploads != [] {
      var n := |uploads| - 1;
      var u, before := uploads[n], WithUploads(items, uploads[..n]);
      WithUploadsDistinct(items, uploads[..n]);
      if !HasUpload(before, u.id) && !Has(before, u.user, u.filename) {
        forall i | i in before ensures i.number != UploadItem(u).number {}
        AddItem(before, UploadItem(u));
      }
    }
  }

  /** No lesson plan is collected twice, neither by file name nor by number. */
  lemma CollectedDistinct(dirs: seq<UserDir>, reports: seq<ReportRow>, uploads: seq<UploadRow>)
    requires UniqueDirs(dirs) && UniqueRows(reports, uploads)
    ensures DistinctItems(Collected(dirs, reports, uploads))
  {
    FileItemsDistinct(dirs);
    forall i | i in FileItems(dirs) ensures i.number.ByOrdinal? {
      FileItemsAre(dirs, i);
    }
    WithReportsDistinct(FileItems(dirs), reports);
    WithUploadsDistinct(WithReports(FileItems(dirs), reports), uploads);
  }

  lemma {:induction false} WithReportsCovers(items: seq<Item>, reports: seq<ReportRow>, k: nat)
    requires k < |reports|
    ensures Has(WithReports(items, reports), reports[k].user, reports[k].filename)
  {
    var n := |reports| - 1;
    var before := WithReports(items, reports[..n]);
    HasMore(before, ReportItem(reports[n]), reports[k].user, reports[k].filename);
    if k < n {
      WithReportsCovers(items, reports[..n], k);
    }
  }

  lemma {:induction false} WithUploadsGrows(items: seq<Item>, uploads: seq<UploadRow>, i: Item)
    requires i in items
    ensures i in WithUploads(items, uploads)
  {
    if uploads != [] {
      WithUploadsGrows(items, uploads[..|uploads| - 1], i);
    }
  }

  lemma {:induction false} WithUploadsCovers(items: seq<Item>, uploads: seq<UploadRow>, k: nat)
    requires k < |uploads|
    ensures HasUpload(WithUploads(items, uploads), uploads[k].id)
            || Has(WithUploads(items, uploads), uploads[k].user, uploads[k].filename)
  {
    var n := |uploads| - 1;
    var before, item := WithUploads(items, uploads[..n]), UploadItem(uploads[n]);
    HasMore(before, item, uploads[k].user, uploads[k].filename);
    if k < n {
      WithUploadsCovers(items, uploads[..n], k);
      if i :| i in before && i.number == ByUpload(uploads[k].id) {
        assert i in before + [item];
      }
    }
  }

  /** And none is lost: every report and every upload is there under its file name, or the
      upload under its number. */
  lemma CollectedCovers(dirs: seq<UserDir>, reports: seq<ReportRow>, uploads: seq<UploadRow>, r: nat, u: nat)
    ensures var c := Collected(dirs, reports, uploads);
      && (r < |reports| ==> Has(c, reports[r].user, reports[r].filename))
      && (u < |uploads| ==> HasUpload(c, uploads[u].id) || Has(c, uploads[u].user, uploads[u].filename))
  {
    var items := WithReports(FileItems(dirs), reports);
    if r < |reports| {
      WithReportsCovers(FileItems(dirs), reports, r);
      var i :| i in items && i.user == reports[r].user && i.file == reports[r].filename;
      WithUploadsGrows(items, uploads, i);
    }
    if u < |uploads| {
      WithUploadsCovers(items, uploads, u);
    }
  }

  // ------------------------------------------------------- what is collected

  /** The item of an included file: its place in the directory is its number. */
  predicate FromFile(dirs: seq<UserDir>, k: nat, n: nat, i: Item) {
    && k < |dirs| && n < |dirs[k].files| && dirs[k].files[n].included
    && i == Item(dirs[k].user, dirs[k].files[n].name, ByOrdinal(n + 1), dirs[k].files[n].name)
  }

  lemma {:induction false} DirItemsExactly(d: UserDir, m: nat, i: Item)
    requires m <= |d.files|
    ensures i in DirItems(d, m) <==> exists n: nat :: n < m && FromFile([d], 0, n, i)
  {
    if m > 0 {
      DirItemsExactly(d, m - 1, i);
      if i in DirItems(d, m) && i !in DirItems(d, m - 1) {
        assert FromFile([d], 0, m - 1, i);
      }
    }
  }

  /** Every included file is collected from the directories, and nothing else is. */
  lemma {:induction false} FilesExactly(dirs: seq<UserDir>, i: Item)
    ensures i in FileItems(dirs) <==> exists k: nat, n: nat :: FromFile(dirs, k, n, i)
  {
    if dirs != [] {
      var m := |dirs| - 1;
      FilesExactly(dirs[..m], i);
      DirItemsExactly(dirs[m], |dirs[m].files|, i);
      if i in FileItems(dirs[..m]) {
        var k: nat, n: nat :| FromFile(dirs[..m], k, n, i);
        assert FromFile(dirs, k, n, i);
      } else if i in DirItems(dirs[m], |dirs[m].files|) {
        var n: nat :| n < |dirs[m].files| && FromFile([dirs[m]], 0, n, i);
        assert FromFile(dirs, m, n, i);
      }
      if k: nat, n: nat :| FromFile(dirs, k, n, i) {
        if k < m {
          assert FromFile(dirs[..m], k, n, i);
        } else {
          assert FromFile([dirs[m]], 0, n, i);
        }
      }
    }
  }

  /** The first report of a user's file that the directories did not hold, numbered by its
      upload or, without one, by itself. */
  predicate FromReport(files: seq<Item>, reports: seq<ReportRow>, k: nat, i: Item) {
    && k < |reports|
    && !Has(files, reports[k].user, reports[k].filename)
    && (forall j | 0 <= j < k :: reports[j].user != reports[k].user || reports[j].filename != reports[k].filename)
    && i == Item(reports[k].user, reports[k].filename,
                 if reports[k].upload.Some? then ByUpload(reports[k].upload.value) else ByReport(reports[k].id), reports[k].slug)
  }

  lemma {:induction false} HasWithReports(files: seq<Item>, reports: seq<ReportRow>, user: nat, file: string)
    ensures Has(WithReports(files, reports), user, file) <==>
            Has(files, user, file) || exists k :: 0 <= k < |reports| && reports[k].user == user && reports[k].filename == file
  {
    if reports != [] {
      var n := |reports| - 1;
      HasWithReports(files, reports[..n], user, file);
      HasMore(WithReports(files, reports[..n]), ReportItem(reports[n]), user, file);
      assert (exists k :: 0 <= k < n && reports[..n][k].user == user && reports[..n][k].filename == file)
        ==> exists k :: 0 <= k < |reports| && reports[k].user == user && reports[k].filename == file by {
        if k :| 0 <= k < n && reports[..n][k].user == user && reports[..n][k].filename == file {
          assert reports[k].user == user && reports[k].filename == file;
        }
      }
      if k :| 0 <= k < |reports| && reports[k].user == user && reports[k].filename == file {
        assert k < n ==> reports[..n][k].user == user && reports[..n][k].filename == file;
      }
    }
  }

  lemma {:induction false} ReportsExactly(files: seq<Item>, reports: seq<ReportRow>, i: Item)
    ensures i in WithReports(files, reports) <==> i in files || exists k: nat :: FromReport(files, reports, k, i)
  {
    if reports != [] {
      var n := |reports| - 1;
      var r, before := reports[n], WithReports(files, reports[..n]);
      ReportsExactly(files, reports[..n], i);
      HasWithReports(files, reports[..n], r.user, r.filename);
      if k: nat :| FromReport(files, reports[..n], k, i) {
        assert FromReport(files, reports, k, i);
      }
      if !Has(before, r.user, r.filename) {
        forall j | 0 <= j < n ensures reports[j].user != r.user || reports[j].filename != r.filename {
          assert reports[..n][j] == reports[j];
        }
        assert FromReport(files, reports, n, ReportItem(r));
      }
      if k: nat :| FromReport(files, reports, k, i) {
        if k < n {
          assert FromReport(files, reports[..n], k, i);
        } else {
          assert !Has(before, r.user, r.filename) && i == ReportItem(r);
        }
      }
    }
  }

  /** An upload that no file and no report has brought in, nor an earlier upload of the same
      file that came in itself. */
  predicate FromUpload(linked: seq<Item>, uploads: seq<UploadRow>, k: nat, i: Item) {
    && k < |uploads|
    && !Has(linked, uploads[k].user, uploads[k].filename) && !HasUpload(linked, uploads[k].id)
    && (forall j | 0 <= j < k && uploads[j].user == uploads[k].user && uploads[j].filename == uploads[k].filename ::
          HasUpload(linked, uploads[j].id))
    && i == Item(uploads[k].user, uploads[k].filename, ByUpload(uploads[k].id), uploads[k].slug)
  }

  /** Among the first `n` uploads one of this file is not linked by its number. */
  predicate Loose(linked: seq<Item>, uploads: seq<UploadRow>, n: nat, user: nat, file: string)
    requires n <= |uploads|
  {
    exists j :: 0 <= j < n && uploads[j].user == user && uploads[j].filename == file && !HasUpload(linked, uploads[j].id)
  }

  lemma {:induction false} UploadNumbers(linked: seq<Item>, uploads: seq<UploadRow>, n: nat, id: nat)
    requires n <= |uploads| && forall j | 0 <= j < n :: uploads[j].id != id
    ensures HasUpload(WithUploads(linked, uploads[..n]), id) <==> HasUpload(linked, id)
  {
    if n > 0 {
      UploadNumbers(linked, uploads, n - 1, id);
      assert uploads[..n][..n - 1] == uploads[..n - 1];
      HasUploadMore(WithUploads(linked, uploads[..n - 1]), UploadItem(uploads[n - 1]));
    } else {
      assert uploads[..0] == [];
    }
  }

  lemma {:induction false} HasWithUploads(linked: seq<Item>, uploads: seq<UploadRow>, n: nat, user: nat, file: string)
    requires n <= |uploads| && UniqueRows([], uploads)
    ensures Has(WithUploads(linked, uploads[..n]), user, file) <==> Has(linked, user, file) || Loose(linked, uploads, n, user, file)
  {
    if n > 0 {
      var m, u := n - 1, uploads[n - 1];
      assert uploads[..n][..m] == uploads[..m];
      HasWithUploads(linked, uploads, m, user, file);
      UploadNumbers(linked, uploads, m, u.id);
      HasMore(WithUploads(linked, uploads[..m]), UploadItem(u), user, file);
      assert Loose(linked, uploads, n, user, file) <==>
             Loose(linked, uploads, m, user, file) || (u.user == user && u.filename == file && !HasUpload(linked, u.id));
    } else {
      assert uploads[..0] == [];
    }
  }

  lemma {:induction false} UploadsExactly(linked: seq<Item>, uploads: seq<UploadRow>, n: nat, i: Item)
    requires n <= |uploads| && UniqueRows([], uploads)
    ensures i in WithUploads(linked, uploads[..n]) <==> i in linked || exists k: nat :: k < n && FromUpload(linked, uploads, k, i)
  {
    if n > 0 {
      var m, u := n - 1, uploads[n - 1];
      assert uploads[..n][..m] == uploads[..m];
      UploadsExactly(linked, uploads, m, i);
      UploadNumbers(linked, uploads, m, u.id);
      HasWithUploads(linked, uploads, m, u.user, u.filename);
      assert !Has(linked, u.user, u.filename) && !HasUpload(linked, u.id) && !Loose(linked, uploads, m, u.user, u.filename)
        <==> FromUpload(linked, uploads, m, UploadItem(u));
    } else {
      assert uploads[..0] == [];
    }
  }

  /** A lesson plan is collected exactly if it is an included file, or a report's that no
      directory holds, or an upload's that neither brings in. */
  lemma CollectedExactly(dirs: seq<UserDir>, reports: seq<ReportRow>, uploads: seq<UploadRow>, i: Item)
    requires UniqueRows(reports, uploads)
    ensures var files := FileItems(dirs); var linked := WithReports(files, reports);
      i in Collected(dirs, reports, uploads) <==>
        || (exists k: nat, n: nat :: FromFile(dirs, k, n, i))
        || (exists k: nat :: FromReport(files, reports, k, i))
        || (exists k: nat :: k < |uploads| && FromUpload(linked, uploads, k, i))
  {
    FilesExactly(dirs, i);
    ReportsExactly(FileItems(dirs), reports, i);
    UploadsExactly(WithReports(FileItems(dirs), reports), uploads, |uploads|, i);
    assert uploads[..|uploads|] == uploads;
  }

  // ----------------------------------------------------------------- collector

  /** What the set `seen` holds. */
  ghost predicate Sees(seen: set<(nat, string)>, items: seq<Item>) {
    forall user: nat, file: string :: (user, file) in seen <==> Has(items, user, file)
  }

  lemma SeesMore(seen: set<(nat, string)>, items: seq<Item>, item: Item)
    requires Sees(seen, items)
    ensures Sees(seen + {(item.user, item.file)}, items + [item])
  {
    forall user: nat, file: string
      ensures (user, file) in seen + {(item.user, item.file)} <==> Has(items + [item], user, file)
    {
      HasMore(items, item, user, file);
    }
  }

  lemma HasUploadMore(items: seq<Item>, item: Item)
    ensures forall id: nat :: HasUpload(items + [item], id) <==> HasUpload(items, id) || item.number == ByUpload(id)
  {
    assert item in items + [item];
    assert forall i | i in items :: i in items + [item];
  }

  method CollectFiles(dirs: seq<UserDir>) returns (items: seq<Item>, seen: set<(nat, string)>)
    ensures items == FileItems(dirs) && Sees(seen, items)
  {
    items := [];
    for k := 0 to |dirs|
      invariant items == FileItems(dirs[..k])
    {
      assert dirs[..k + 1][..k] == dirs[..k];
      ghost var before := items;
      for n := 0 to |dirs[k].files|
        invariant items == before + DirItems(dirs[k], n)
      {
        if dirs[k].files[n].included {
          items := items + [Item(dirs[k].user, dirs[k].files[n].name, ByOrdinal(n + 1), dirs[k].files[n].name)];
        }
      }
    }
    assert dirs[..|dirs|] == dirs;
    seen := set i | i in items :: (i.user, i.file);
  }

  method AddReports(files: seq<Item>, reports: seq<ReportRow>, seenFiles: set<(nat, string)>)
    returns (items: seq<Item>, seen: set<(nat, string)>, seenUploads: set<nat>)
    requires Sees(seenFiles, files) && forall i | i in files :: i.number.ByOrdinal?
    ensures items == WithReports(files, reports) && Sees(seen, items)
    ensures forall id: nat :: id in seenUploads <==> HasUpload(items, id)
  {
    items, seen, seenUploads := files, seenFiles, {};
    for k := 0 to |reports|
      invariant items == WithReports(files, reports[..k]) && Sees(seen, items)
      invariant forall id: nat :: id in seenUploads <==> HasUpload(items, id)
    {
      assert reports[..k + 1][..k] == reports[..k];
      var r := reports[k];
      if (r.user, r.filename) !in seen {
        SeesMore(seen, items, ReportItem(r));
        HasUploadMore(items, ReportItem(r));
        items := items + [ReportItem(r)];
        seen := seen + {(r.user, r.filename)};
        if r.upload.Some? {
          seenUploads := seenUploads + {r.upload.value};
        }
      }
    }
    assert reports[..|reports|] == reports;
  }

  /** The ids of the uploads among these rows. */
  predicate Among(uploads: seq<UploadRow>, n: nat, id: nat)
    requires n <= |uploads|
  {
    exists m :: 0 <= m < n && uploads[m].id == id
  }

  method AddUploads(linked: seq<Item>, uploads: seq<UploadRow>, seenBefore: set<(nat, string)>, seenUploads: set<nat>)
    returns (items: seq<Item>)
    requires Sees(seenBefore, linked) && forall id: nat :: id in seenUploads <==> HasUpload(linked, id)
    requires UniqueRows([], uploads)
    ensures items == WithUploads(linked, uploads)
  {
    items := linked;
    var seen := seenBefore;
    for k := 0 to |uploads|
      invariant items == WithUploads(linked, uploads[..k]) && Sees(seen, items)
      invariant forall id: nat | id in seenUploads :: HasUpload(items, id)
      invariant forall id: nat | HasUpload(items, id) :: id in seenUploads || Among(uploads, k, id)
    {
      assert uploads[..k + 1][..k] == uploads[..k];
      var u := uploads[k];
      if u.id !in seenUploads && (u.user, u.filename) !in seen {
        SeesMore(seen, items, UploadItem(u));
        HasUploadMore(items, UploadItem(u));
        items := items + [UploadItem(u)];
        seen := seen + {(u.user, u.filename)};
      }
    }
    assert uploads[..|uploads|] == uploads;
  }

  /** `_collect_lessonplans`: no plan twice and none lost. */
  method CollectLessonplans(dirs: seq<UserDir>, reports: seq<ReportRow>, uploads: seq<UploadRow>) returns (items: seq<Item>)
    requires UniqueDirs(dirs) && UniqueRows(reports, uploads)
    ensures items == Collected(dirs, reports, uploads) && DistinctItems(items)
  {
    var files, seen := CollectFiles(dirs);
    forall i | i in files ensures i.number.ByOrdinal? { FileItemsAre(dirs, i); }
    var linked, seenNow, seenUploads := AddReports(files, reports, seen);
    items := AddUploads(linked, uploads, seenNow, seenUploads);
    CollectedDistinct(dirs, reports, uploads);
  }

  // --------------------------------------------------------- archive, manifest

  /** What is known of the bytes written: their number and their hash, none for a file
      that was missing. */
  datatype Digest = Digest(size: nat, hash: Option<string>)

  /** An archive path and what is written there; `None` for a missing source file. */
  datatype Member = Member(path: string, payload: Option<seq<nat>>)

  function DigestOf(sha: seq<nat> -> string, m: Member): Digest {
    match m.payload
    case None => Digest(0, None)
    case Some(bytes) => Digest(|bytes|, Some(sha(bytes)))
  }

  /** The digests noted while these members were written. */
  function Noted(sha: seq<nat> -> string, members: seq<Member>): map<string, Digest> {
    if members == [] then map[]
    else
      var m := members[|members| - 1];
      Noted(sha, members[..|members| - 1])[m.path := DigestOf(sha, m)]
  }

  /** The manifest row of member `i` carries the size and hash of its own bytes. */
  predicate OwnDigest(sha: seq<nat> -> string, members: seq<Member>, i: nat)
    requires i < |members|
  {
    && members[i].path in Noted(sha, members)
    && var noted := Noted(sha, members)[members[i].path];
       match members[i].payload
       case None => noted.size == 0 && noted.hash == None
       case Some(bytes) => noted.size == |bytes| && noted.hash == Some(sha(bytes))
  }

  /** `_emit_*`: a member is written and its digest noted under its path. */
  method Emit(sha: seq<nat> -> string, members: seq<Member>) returns (digests: map<string, Digest>)
    ensures digests == Noted(sha, members)
  {
    digests := map[];
    for k := 0 to |members|
      invariant digests == Noted(sha, members[..k])
    {
      assert members[..k + 1][..k] == members[..k];
      digests := digests[members[k].path := DigestOf(sha, members[k])];
    }
    assert members[..|members|] == members;
  }

  lemma {:induction false} LastNoted(sha: seq<nat> -> string, members: seq<Member>, i: nat)
    requires i < |members| && forall j | i < j < |members| :: members[j].path != members[i].path
    ensures OwnDigest(sha, members, i)
  {
    var n := |members| - 1;
    if i < n {
      LastNoted(sha, members[..n], i);
      assert OwnDigest(sha, members[..n], i);
    }
  }

  lemma {:induction false} LaterOf(members: seq<Member>, i: nat) returns (k: nat)
    requires i < |members|
    ensures i <= k < |members| && members[k].path == members[i].path
    ensures forall j | k < j < |members| :: members[j].path != members[k].path
    decreases |members| - i
  {
    k := i;
    if j :| i < j < |members| && members[j].path == members[i].path {
      k := LaterOf(members, j);
    }
  }

  /** Every manifest row carries the digest of its own bytes exactly when members that share
      a path have the same digest. */
  lemma RowsOwnDigests(sha: seq<nat> -> string, members: seq<Member>)
    ensures (forall i | 0 <= i < |members| :: OwnDigest(sha, members, i)) <==>
            forall i, j | 0 <= i < j < |members| && members[i].path == members[j].path ::
              DigestOf(sha, members[i]) == DigestOf(sha, members[j])
  {
    if forall i | 0 <= i < |members| :: OwnDigest(sha, members, i) {
      forall i, j | 0 <= i < j < |members| && members[i].path == members[j].path
        ensures DigestOf(sha, members[i]) == DigestOf(sha, members[j])
      {
        assert OwnDigest(sha, members, i) && OwnDigest(sha, members, j);
      }
    }
    if forall i, j | 0 <= i < j < |members| && members[i].path == members[j].path ::
         DigestOf(sha, members[i]) == DigestOf(sha, members[j]) {
      forall i | 0 <= i < |members| ensures OwnDigest(sha, members, i) {
        var k := LaterOf(members, i);
        LastNoted(sha, members, k);
      }
    }
  }

  // ------------------------------------------------------------ the whole plan

  datatype ChatRow = ChatRow(session: nat, user: nat, upload: Option<nat>, slug: string)
  datatype SimulationRow = SimulationRow(session: nat, user: nat, lesson: nat, slug: string)

  predicate UniqueSessions(chats: seq<ChatRow>, simulations: seq<SimulationRow>) {
    && (forall i, j | 0 <= i < j < |chats| :: chats[i].session != chats[j].session)
    && (forall i, j | 0 <= i < j < |simulations| :: simulations[i].session != simulations[j].session)
  }

  function ReportEntries(rows: seq<ReportRow>): seq<Entry> {
    seq(|rows|, i requires 0 <= i < |rows| => Report(rows[i].user, ReportItem(rows[i]).number, rows[i].slug))
  }

  function ChatEntries(rows: seq<ChatRow>): seq<Entry> {
    seq(|rows|, i requires 0 <= i < |rows| => Conversation(rows[i].user, rows[i].session, rows[i].upload, rows[i].slug))
  }

  function LogEntries(rows: seq<SimulationRow>): seq<Entry> {
    seq(|rows|, i requires 0 <= i < |rows| => SimulationLog(rows[i].user, rows[i].session, rows[i].lesson, rows[i].slug))
  }

  function MarkdownEntries(rows: seq<SimulationRow>): seq<Entry> {
    seq(|rows|, i requires 0 <= i < |rows| => SimulationReport(rows[i].user, rows[i].session, rows[i].lesson, rows[i].slug))
  }

  function PlanEntries(items: seq<Item>): seq<Entry> {
    seq(|items|, i requires 0 <= i < |items| => EntryOf(items[i]))
  }

  function WholePlan(rows: seq<ReportRow>, chats: seq<ChatRow>, simulations: seq<SimulationRow>, items: seq<Item>): seq<Entry> {
    ReportEntries(rows) + ChatEntries(chats) + LogEntries(simulations) + MarkdownEntries(simulations) + PlanEntries(items)
  }

  /** No item twice. */
  predicate Apart(entries: seq<Entry>) {
    forall i, j | 0 <= i < j < |entries| :: !SameItem(entries[i], entries[j])
  }

  lemma ApartConcat(xs: seq<Entry>, ys: seq<Entry>)
    requires Apart(xs) && Apart(ys)
    requires forall i, j | 0 <= i < |xs| && 0 <= j < |ys| :: !SameItem(xs[i], ys[j])
    ensures Apart(xs + ys)
  {
  }

  lemma WholePlanApart(rows: seq<ReportRow>, chats: seq<ChatRow>, simulations: seq<SimulationRow>, items: seq<Item>)
    requires UniqueRows(rows, []) && UniqueSessions(chats, simulations) && DistinctItems(items)
    ensures Apart(WholePlan(rows, chats, simulations, items))
  {
    var a, b, c, d, e := ReportEntries(rows), ChatEntries(chats), LogEntries(simulations), MarkdownEntries(simulations), PlanEntries(items);
    forall i, j | 0 <= i < j < |rows| ensures !SameItem(a[i], a[j]) {
      assert rows[i].id != rows[j].id;
    }
    ApartConcat(a, b);
    ApartConcat(a + b, c);
    ApartConcat(a + b + c, d);
    ApartConcat(a + b + c + d, e);
  }

  /** With unique database ids and at most one report per upload the paths of a whole export
      plan are pairwise different, whatever the original names. */
  lemma WholePlanPaths(dirs: seq<UserDir>, rows: seq<ReportRow>, uploads: seq<UploadRow>, chats: seq<ChatRow>,
                       simulations: seq<SimulationRow>, i: nat, j: nat)
    requires UniqueDirs(dirs) && UniqueRows(rows, uploads) && UniqueSessions(chats, simulations)
    requires i < j < |WholePlan(rows, chats, simulations, Collected(dirs, rows, uploads))|
    ensures var plan := WholePlan(rows, chats, simulations, Collected(dirs, rows, uploads));
      Path(plan[i]) != Path(plan[j])
  {
    var plan := WholePlan(rows, chats, simulations, Collected(dirs, rows, uploads));
    CollectedDistinct(dirs, rows, uploads);
    WholePlanApart(rows, chats, simulations, Collected(dirs, rows, uploads));
    if Path(plan[i]) == Path(plan[j]) {
      PathUnique(plan[i], plan[j]);
    }
  }

  /** The manifest of such an archive: every row carries the size and hash of the bytes
      that were written for its own entry. */
  lemma ManifestIsRight(sha: seq<nat> -> string, dirs: seq<UserDir>, rows: seq<ReportRow>, uploads: seq<UploadRow>,
                        chats: seq<ChatRow>, simulations: seq<SimulationRow>, members: seq<Member>)
    requires UniqueDirs(dirs) && UniqueRows(rows, uploads) && UniqueSessions(chats, simulations)
    requires var plan := WholePlan(rows, chats, simulations, Collected(dirs, rows, uploads));
      |members| == |plan| && forall i | 0 <= i < |plan| :: members[i].path == Path(plan[i])
    ensures forall i | 0 <= i < |members| :: OwnDigest(sha, members, i)
  {
    forall i, j | 0 <= i < j < |members| ensures members[i].path != members[j].path {
      WholePlanPaths(dirs, rows, uploads, chats, simulations, i, j);
    }
    RowsOwnDigests(sha, members);
  }
}
