/** The three stores under a Kodi configuration directory (the `path` table of
    MyVideos116.db, sources.xml and mediasources.xml), the order in which a
    descriptor is applied to them, and the bulk clear. */
module KodiSources {
  import opened Wrappers
  import opened Errors
  import opened Xml
  import opened KodiPaths
  import SourcesXml
  import MediaSourcesXml

  /** A row of the `path` table, one value per column of `Keys`; None is NULL.
      Rows of other subsystems have a NULL `strContent`. */
  type PathRow = seq<Option<string>>

  const ContentColumn: nat := 1

  predicate HasContent(row: PathRow) {
    |row| > ContentColumn && row[ContentColumn].Some?
  }

  function AsRow(values: seq<string>): PathRow {
    seq(|values|, i requires 0 <= i < |values| => Some(values[i]))
  }

  /** The rows whose `strContent` is not NULL, in table order (`get_sources`). */
  function ContentRows(rows: seq<PathRow>): (r: seq<PathRow>)
    ensures forall row :: row in r <==> row in rows && HasContent(row)
  {
    if rows == [] then []
    else
      assert forall row :: row in rows <==> row == rows[0] || row in rows[1..];
      (if HasContent(rows[0]) then [rows[0]] else []) + ContentRows(rows[1..])
  }

  /** The rows left once those with a non-NULL `strContent` are deleted, in table order. */
  function OtherRows(rows: seq<PathRow>): (r: seq<PathRow>)
    ensures forall row :: row in r <==> row in rows && !HasContent(row)
  {
    if rows == [] then []
    else
      assert forall row :: row in rows <==> row == rows[0] || row in rows[1..];
      (if HasContent(rows[0]) then [] else [rows[0]]) + OtherRows(rows[1..])
  }

  /** With the empty table, these fix `ContentRows` as the in-order filter
      that keeps duplicates. */
  lemma {:induction false} ContentRowsAppend(rows: seq<PathRow>, row: PathRow)
    ensures ContentRows(rows + [row]) == ContentRows(rows) + (if HasContent(row) then [row] else [])
  {
    if rows == [] {
      assert rows + [row] == [row];
      assert ContentRows([row]) == (if HasContent(row) then [row] else []) + ContentRows([]);
    } else {
      var head := if HasContent(rows[0]) then [rows[0]] else [];
      var tail := if HasContent(row) then [row] else [];
      assert (rows + [row])[0] == rows[0];
      assert (rows + [row])[1..] == rows[1..] + [row];
      ContentRowsAppend(rows[1..], row);
      calc {
        ContentRows(rows + [row]);
        head + ContentRows(rows[1..] + [row]);
        head + (ContentRows(rows[1..]) + tail);
        (head + ContentRows(rows[1..])) + tail;
      }
    }
  }

  /** The same for the rows the delete keeps. */
  lemma {:induction false} OtherRowsAppend(rows: seq<PathRow>, row: PathRow)
    ensures OtherRows(rows + [row]) == OtherRows(rows) + (if HasContent(row) then [] else [row])
  {
    if rows == [] {
      assert rows + [row] == [row];
      assert OtherRows([row]) == (if HasContent(row) then [] else [row]) + OtherRows([]);
    } else {
      var head := if HasContent(rows[0]) then [] else [rows[0]];
      var tail := if HasContent(row) then [] else [row];
      assert (rows + [row])[0] == rows[0];
      assert (rows + [row])[1..] == rows[1..] + [row];
      OtherRowsAppend(rows[1..], row);
      calc {
        OtherRows(rows + [row]);
        head + OtherRows(rows[1..] + [row]);
        head + (OtherRows(rows[1..]) + tail);
        (head + OtherRows(rows[1..])) + tail;
      }
    }
  }

  /** Nothing the delete leaves has a content type. */
  lemma {:induction false} ContentRowsOfOtherRows(rows: seq<PathRow>)
    ensures ContentRows(OtherRows(rows)) == []
  {
    if rows != [] {
      ContentRowsOfOtherRows(rows[1..]);
      var rest := OtherRows(rows[1..]);
      if HasContent(rows[0]) {
        assert OtherRows(rows) == rest;
      } else {
        assert OtherRows(rows) == [rows[0]] + rest;
        assert ([rows[0]] + rest)[1..] == rest;
      }
    }
  }

  /** `add_to_database`: the row values are looked up before the statement
      runs, so an unknown content type fails even when the table is missing. */
  function InsertRow(table: Option<seq<PathRow>>, p: KodiPath): (r: Result<seq<PathRow>, Error>)
    ensures !IsSupportedContent(p.content) ==> r == Failure(KeyError(p.content))
    ensures IsSupportedContent(p.content) && table.None? ==> r == Failure(NoSuchTable)
    ensures IsSupportedContent(p.content) && table.Some? ==> r == Success(table.value + [AsRow(RowValues(p).value)])
    ensures r.Success? ==>
              && table.Some? && |r.value| == |table.value| + 1
              && r.value[..|table.value|] == table.value
              && HasContent(r.value[|table.value|])
              && r.value[|table.value|][ContentColumn] == Some(p.content)
  {
    match RowValues(p)
    case Failure(e) => Failure(e)
    case Success(values) =>
      if table.None? then Failure(NoSuchTable)
      else
        assert (table.value + [AsRow(values)])[..|table.value|] == table.value;
        Success(table.value + [AsRow(values)])
  }

  /** `drop_sources`: only rows with a content type go. */
  function DeleteContentRows(table: Option<seq<PathRow>>): (r: Result<seq<PathRow>, Error>)
    ensures r.Failure? <==> table.None?
    ensures r.Failure? ==> r.error == NoSuchTable
    ensures r.Success? ==> ContentRows(r.value) == [] && r.value == OtherRows(table.value)
  {
    if table.None? then Failure(NoSuchTable)
    else
      ContentRowsOfOtherRows(table.value);
      Success(OtherRows(table.value))
  }

  datatype Stores = Stores(pathTable: Option<seq<PathRow>>, sourcesXml: Option<Element>, mediaSourcesXml: Option<Element>)

  /** The stores after an operation, and the exception it raised, if any. */
  datatype Run = Run(stores: Stores, err: Option<Error>)

  /** `add_to_kodi`: the database row, then mediasources.xml, then
      sources.xml; the first exception stops the rest, and what was already
      written stays written. */
  function AddToKodi(s: Stores, p: KodiPath): (r: Run)
    ensures r.err.None? <==>
              && InsertRow(s.pathTable, p).Success?
              && MediaSourcesXml.AddToMediaSources(s.mediaSourcesXml, p).Success?
              && SourcesXml.AddToSources(s.sourcesXml, p).Success?
    ensures r.err.None? ==>
              r.stores == Stores(Some(InsertRow(s.pathTable, p).value),
                                 Stored(s.sourcesXml, SourcesXml.AddToSources(s.sourcesXml, p)),
                                 Stored(s.mediaSourcesXml, MediaSourcesXml.AddToMediaSources(s.mediaSourcesXml, p)))
    ensures r.err.Some? ==> r.stores.sourcesXml == s.sourcesXml
    ensures InsertRow(s.pathTable, p).Failure? ==> r == Run(s, Some(InsertRow(s.pathTable, p).error))
    ensures InsertRow(s.pathTable, p).Success? ==>
              && r.stores.pathTable == Some(InsertRow(s.pathTable, p).value)
              && r.stores.mediaSourcesXml == Stored(s.mediaSourcesXml, MediaSourcesXml.AddToMediaSources(s.mediaSourcesXml, p))
              && r.err == (if MediaSourcesXml.AddToMediaSources(s.mediaSourcesXml, p).Failure?
                           then Some(MediaSourcesXml.AddToMediaSources(s.mediaSourcesXml, p).error)
                           else ErrorOf(SourcesXml.AddToSources(s.sourcesXml, p)))
  {
    match InsertRow(s.pathTable, p)
    case Failure(e) => Run(s, Some(e))
    case Success(table) =>
      var withRow := s.(pathTable := Some(table));
      var media := MediaSourcesXml.AddToMediaSources(s.mediaSourcesXml, p);
      if media.Failure? then Run(withRow, Some(media.error))
      else
        var withLocation := withRow.(mediaSourcesXml := Stored(s.mediaSourcesXml, media));
        var sources := SourcesXml.AddToSources(s.sourcesXml, p);
        Run(withLocation.(sourcesXml := Stored(s.sourcesXml, sources)), ErrorOf(sources))
  }

  /** An unknown content type fails at the first lookup, before any store is
      touched; so does a missing table. */
  lemma AddToKodiTouchesNothingOnLookupFailure(s: Stores, p: KodiPath)
    ensures !IsSupportedContent(p.content) ==> AddToKodi(s, p) == Run(s, Some(KeyError(p.content)))
    ensures IsSupportedContent(p.content) && s.pathTable.None? ==> AddToKodi(s, p) == Run(s, Some(NoSuchTable))
  {
  }

  /** Stores are written in order: a failed run never changes sources.xml, and
      a changed mediasources.xml means the row went in first. */
  lemma AddToKodiOrder(s: Stores, p: KodiPath)
    ensures AddToKodi(s, p).err.Some? ==> AddToKodi(s, p).stores.sourcesXml == s.sourcesXml
    ensures AddToKodi(s, p).stores.mediaSourcesXml != s.mediaSourcesXml ==>
              InsertRow(s.pathTable, p).Success?
              && AddToKodi(s, p).stores.pathTable == Some(InsertRow(s.pathTable, p).value)
    ensures AddToKodi(s, p).stores.pathTable != s.pathTable ==> InsertRow(s.pathTable, p).Success?
  {
  }

  /** Running the same registration again leaves both documents as they are
      and, with no uniqueness constraint on the table, adds a second row. */
  lemma AddToKodiRepeated(s: Stores, p: KodiPath)
    requires AddToKodi(s, p).err.None?
    ensures var once := AddToKodi(s, p).stores;
            var twice := AddToKodi(once, p);
            && twice.err.None?
            && twice.stores.sourcesXml == once.sourcesXml
            && twice.stores.mediaSourcesXml == once.mediaSourcesXml
            && |twice.stores.pathTable.value| == |once.pathTable.value| + 1
  {
    SourcesXml.AddToSourcesIdempotent(s.sourcesXml, p);
    MediaSourcesXml.AddToMediaSourcesIdempotent(s.mediaSourcesXml, p);
  }

  /** Registering a descriptor against an empty table with both documents
      absent: one row, one location with id "-1", and the sources skeleton
      with the one new source under `video`. */
  lemma AddToKodiFreshStores(p: KodiPath)
    requires IsSupportedContent(p.content)
    ensures var run := AddToKodi(Stores(Some([]), None, None), p);
            && run.err.None?
            && run.stores.pathTable == Some([AsRow(RowValues(p).value)])
            && run.stores.mediaSourcesXml == Some(MediaSourcesXml.MediaSourcesWith([MediaSourcesXml.Location(p.path, "-1")]))
            && run.stores.sourcesXml == Some(SourcesXml.SkeletonWith(p))
  {
    var empty: seq<PathRow> := [];
    var row := AsRow(RowValues(p).value);
    assert empty + [row] == [row];
    assert InsertRow(Some(empty), p) == Success([row]);
    MediaSourcesXml.FirstLocationIdIsMinusOne(p);
    SourcesXml.AddToAbsentSources(p);
  }

  /** `clear_sources`: the content rows are deleted, then the video sources
      are removed; the first exception stops the rest. */
  function ClearStores(s: Stores): (r: Run)
    ensures r.stores.mediaSourcesXml == s.mediaSourcesXml
    ensures s.pathTable.None? ==> r == Run(s, Some(NoSuchTable))
    ensures s.pathTable.Some? ==>
              && r.stores.pathTable == Some(OtherRows(s.pathTable.value))
              && r.stores.sourcesXml == Stored(s.sourcesXml, SourcesXml.ClearVideoSources(s.sourcesXml))
              && r.err == ErrorOf(SourcesXml.ClearVideoSources(s.sourcesXml))
  {
    match DeleteContentRows(s.pathTable)
    case Failure(e) => Run(s, Some(e))
    case Success(table) =>
      var cleared := SourcesXml.ClearVideoSources(s.sourcesXml);
      Run(s.(pathTable := Some(table), sourcesXml := Stored(s.sourcesXml, cleared)), ErrorOf(cleared))
  }

  /** After a successful clear no row has a content type, every other row is
      kept, `video` holds no source, and mediasources.xml is untouched. */
  lemma ClearSourcesEmpties(s: Stores)
    requires ClearStores(s).err.None?
    ensures var after := ClearStores(s).stores;
            && after.pathTable.Some? && ContentRows(after.pathTable.value) == []
            && (forall row :: row in s.pathTable.value && !HasContent(row) ==> row in after.pathTable.value)
            && after.mediaSourcesXml == s.mediaSourcesXml
            && (s.sourcesXml.Some? ==>
                  && after.sourcesXml.Some?
                  && FindIndex(after.sourcesXml.value.children, "video").Some?
                  && SourcesXml.VideoSources(after.sourcesXml.value) == [])
            && (s.sourcesXml.None? ==> after.sourcesXml == None)
  {
    ContentRowsOfOtherRows(s.pathTable.value);
    if s.sourcesXml.Some? {
      SourcesXml.ClearLeavesNoVideoSource(s.sourcesXml.value);
    }
  }

  /** The stores of a Kodi configuration directory, as the files hold them
      between calls: the `path` table (None when the database or the table is
      absent) and the two documents (None when the file is absent). */
  class KodiSourceManager {
    var pathTable: Option<seq<PathRow>>
    var sourcesXml: Option<Element>
    var mediaSourcesXml: Option<Element>

    constructor (pathTable: Option<seq<PathRow>>, sourcesXml: Option<Element>, mediaSourcesXml: Option<Element>)
      ensures this.pathTable == pathTable && this.sourcesXml == sourcesXml && this.mediaSourcesXml == mediaSourcesXml
    {
      this.pathTable := pathTable;
      this.sourcesXml := sourcesXml;
      this.mediaSourcesXml := mediaSourcesXml;
    }

    function State(): Stores
      reads this
    {
      Stores(pathTable, sourcesXml, mediaSourcesXml)
    }

    /** `get_sources`: the rows with a content type. */
    method GetSources() returns (r: Result<seq<PathRow>, Error>)
      ensures r.Failure? <==> pathTable.None?
      ensures r.Success? ==> r.value == ContentRows(pathTable.value)
      ensures r.Success? ==> forall row :: row in r.value <==> row in pathTable.value && HasContent(row)
    {
      if pathTable.None? {
        return Failure(NoSuchTable);
      }
      r := Success(ContentRows(pathTable.value));
    }

    /** `drop_sources`. */
    method DropSources() returns (err: Option<Error>)
      modifies this`pathTable
      ensures pathTable == (if old(pathTable).None? then None else Some(OtherRows(old(pathTable).value)))
      ensures err == ErrorOf(DeleteContentRows(old(pathTable)))
    {
      if pathTable.None? {
        return Some(NoSuchTable);
      }
      pathTable := Some(OtherRows(pathTable.value));
      err := None;
    }

    /** `clear_video_sources`: an absent file is left alone; otherwise the
      `source` children of `video` are removed one by one and the file is
      rewritten. */
    method ClearVideoSources() returns (err: Option<Error>)
      modifies this`sourcesXml
      ensures sourcesXml == Stored(old(sourcesXml), SourcesXml.ClearVideoSources(old(sourcesXml)))
      ensures err == ErrorOf(SourcesXml.ClearVideoSources(old(sourcesXml)))
    {
      if sourcesXml.None? {
        return None;
      }
      var root := sourcesXml.value;
      var found := FindIndex(root.children, "video");
      if found.None? {
        return Some(MissingElement("video"));
      }
      var video := SourcesXml.RemoveVideoSources(root.children[found.value]);
      sourcesXml := Some(root.(children := root.children[found.value := video]));
      err := None;
    }

    /** `add_to_database`. */
    method AddToDatabase(p: KodiPath) returns (err: Option<Error>)
      modifies this`pathTable
      ensures pathTable == (match InsertRow(old(pathTable), p)
                            case Success(table) => Some(table)
                            case Failure(_) => old(pathTable))
      ensures err == ErrorOf(InsertRow(old(pathTable), p))
    {
      var values := RowValues(p);
      if values.Failure? {
        return Some(values.error);
      }
      if pathTable.None? {
        return Some(NoSuchTable);
      }
      pathTable := Some(pathTable.value + [AsRow(values.value)]);
      err := None;
    }

    /** `add_to_mediasources`. */
    method AddToMediaSources(p: KodiPath) returns (err: Option<Error>)
      modifies this`mediaSourcesXml
      ensures mediaSourcesXml == Stored(old(mediaSourcesXml), MediaSourcesXml.AddToMediaSources(old(mediaSourcesXml), p))
      ensures err == ErrorOf(MediaSourcesXml.AddToMediaSources(old(mediaSourcesXml), p))
    {
      var tree := if mediaSourcesXml.Some? then mediaSourcesXml.value else MediaSourcesXml.DefaultMediaSourcesXml();
      var r := MediaSourcesXml.AddLocationToTree(tree, p);
      if r.Failure? {
        return Some(r.error);
      }
      if r.value.Write? {
        mediaSourcesXml := Some(r.value.root);
      }
      err := None;
    }

    /** `add_to_sources`. */
    method AddToSources(p: KodiPath) returns (err: Option<Error>)
      modifies this`sourcesXml
      ensures sourcesXml == Stored(old(sourcesXml), SourcesXml.AddToSources(old(sourcesXml), p))
      ensures err == ErrorOf(SourcesXml.AddToSources(old(sourcesXml), p))
    {
      var tree: Element;
      if sourcesXml.Some? {
        tree := sourcesXml.value;
      } else {
        tree := SourcesXml.CreateDefaultSourcesXml();
      }
      var r := SourcesXml.AddSourceToTree(tree, p);
      if r.Failure? {
        return Some(r.error);
      }
      if r.value.Write? {
        sourcesXml := Some(r.value.root);
      }
      err := None;
    }

    /** `insert_source_from_kodipath`, through `add_to_kodi`. */
    method InsertSourceFromKodiPath(p: KodiPath) returns (err: Option<Error>)
      modifies this
      ensures State() == AddToKodi(old(State()), p).stores
      ensures err == AddToKodi(old(State()), p).err
    {
      ghost var s := State();
      err := AddToDatabase(p);
      if err.Some? {
        return;
      }
      ghost var withRow := State();
      assert withRow == s.(pathTable := Some(InsertRow(s.pathTable, p).value));
      err := AddToMediaSources(p);
      if err.Some? {
        return;
      }
      assert State() == withRow.(mediaSourcesXml := Stored(s.mediaSourcesXml, MediaSourcesXml.AddToMediaSources(s.mediaSourcesXml, p)));
      err := AddToSources(p);
    }

    /** `insert_source`: the descriptor is built without any check. */
    method InsertSource(name: string, path: string, content: string) returns (err: Option<Error>)
      modifies this
      ensures State() == AddToKodi(old(State()), KodiPath(name, path, content)).stores
      ensures err == AddToKodi(old(State()), KodiPath(name, path, content)).err
    {
      err := InsertSourceFromKodiPath(KodiPath(name, path, content));
    }

    /** `clear_sources`. */
    method ClearSources() returns (err: Option<Error>)
      modifies this
      ensures State() == ClearStores(old(State())).stores
      ensures err == ClearStores(old(State())).err
    {
      err := DropSources();
      if err.Some? {
        return;
      }
      err := ClearVideoSources();
    }
  }
}
