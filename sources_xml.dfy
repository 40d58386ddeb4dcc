/** The sources document (`userdata/sources.xml`): its default skeleton, the
    merge that registers a descriptor under `video`, and the removal of every
    video source. */
module SourcesXml {
  import opened Wrappers
  import opened Errors
  import opened Xml
  import opened KodiPaths

  /** The categories of the default skeleton, in document order. */
  const CategoryTags: seq<string> := ["programs", "video", "music", "pictures", "files", "games"]

  /** The `default` placeholder every category of the skeleton holds. */
  function DefaultMarker(): Element {
    Element("default", map["pathversion" := "1"], None, [])
  }

  function Category(tag: string): Element {
    Element(tag, map[], None, [DefaultMarker()])
  }

  /** The document written when sources.xml is absent. */
  function DefaultSourcesXml(): Element {
    Element("sources", map[], None, seq(|CategoryTags|, i requires 0 <= i < |CategoryTags| => Category(CategoryTags[i])))
  }

  /** `__create_default_sources_xml`: appends the six categories to a new
      `sources` root, then walks them and gives each its `default` child. */
  method CreateDefaultSourcesXml() returns (r: Element)
    ensures r.tag == "sources" && r.attrs == map[] && r.text == None
    ensures |r.children| == |CategoryTags|
    ensures forall i :: 0 <= i < |r.children| ==>
              r.children[i].tag == CategoryTags[i] && r.children[i].children == [DefaultMarker()]
    ensures r == DefaultSourcesXml()
  {
    var categories := [Bare("programs"), Bare("video"), Bare("music"), Bare("pictures"), Bare("files"), Bare("games")];
    var i := 0;
    while i < |categories|
      invariant 0 <= i <= |categories| == |CategoryTags|
      invariant forall j :: 0 <= j < i ==> categories[j] == Category(CategoryTags[j])
      invariant forall j :: i <= j < |categories| ==> categories[j] == Bare(CategoryTags[j])
    {
      var source := categories[i];
      categories := categories[i := source.(children := source.children + [DefaultMarker()])];
      i := i + 1;
    }
    r := Element("sources", map[], None, categories);
  }

  /** The skeleton's `video` category is its second child and holds no source. */
  lemma DefaultSourcesXmlVideo()
    ensures FindIndex(DefaultSourcesXml().children, "video") == Some(1)
    ensures DefaultSourcesXml().children[1] == Category("video")
  {
  }

  /** The entry registered for a descriptor: `name`, then `path` with
      `pathversion="1"`, then `allowsharing` set to "true". */
  function SourceEntry(p: KodiPath): Element {
    Element("source", map[], None, [
      Element("name", map[], Some(p.name), []),
      Element("path", map["pathversion" := "1"], Some(p.path), []),
      Element("allowsharing", map[], Some("true"), [])])
  }

  /** The text of a source's first `path` child; a source without one raises. */
  function PathText(source: Element): Result<Option<string>, Error> {
    match FindIndex(source.children, "path")
    case None => Failure(MissingElement("path"))
    case Some(i) => Success(source.children[i].text)
  }

  predicate HasPath(source: Element, path: string) {
    PathText(source) == Success(Some(path))
  }

  lemma SourceEntryHasPath(p: KodiPath)
    ensures HasPath(SourceEntry(p), p.path)
  {
    assert FindIndex(SourceEntry(p).children, "path") == Some(1);
  }

  /** The duplicate test of `add_to_sources`: the comprehension reads the
      `path` text of every source, so one source without `path` makes it raise
      even when another source matches. */
  function HasSourceWithPath(sources: seq<Element>, path: string): (r: Result<bool, Error>)
    ensures r.Failure? <==> exists s :: s in sources && PathText(s).Failure?
    ensures r.Failure? ==> r.error == MissingElement("path")
    ensures r.Success? ==> (r.value <==> exists s :: s in sources && HasPath(s, path))
  {
    if sources == [] then Success(false)
    else
      assert forall s :: s in sources <==> s == sources[0] || s in sources[1..];
      match PathText(sources[0])
      case Failure(e) => Failure(e)
      case Success(text) =>
        match HasSourceWithPath(sources[1..], path)
        case Failure(e) => Failure(e)
        case Success(found) =>
          assert HasPath(sources[0], path) <==> text == Some(path);
          Success(found || text == Some(path))
  }

  /** The number of sources whose `path` text is `path`. */
  function CountWithPath(sources: seq<Element>, path: string): (n: nat)
    ensures n == 0 <==> forall s :: s in sources ==> !HasPath(s, path)
  {
    if sources == [] then 0
    else
      assert forall s :: s in sources <==> s == sources[0] || s in sources[1..];
      (if HasPath(sources[0], path) then 1 else 0) + CountWithPath(sources[1..], path)
  }

  lemma {:induction false} CountWithPathAppend(sources: seq<Element>, x: Element, path: string)
    ensures CountWithPath(sources + [x], path) == CountWithPath(sources, path) + (if HasPath(x, path) then 1 else 0)
  {
    if sources != [] {
      assert (sources + [x])[1..] == sources[1..] + [x];
      CountWithPathAppend(sources[1..], x, path);
    }
  }

  /** The `source` children of the first `video` category. */
  function VideoSources(root: Element): seq<Element>
    requires FindIndex(root.children, "video").Some?
  {
    FindAll(root.children[FindIndex(root.children, "video").value].children, "source")
  }

  /** `root'` is `root` with one more child at the end of its first `video`
      category, every other node left as it was. */
  ghost predicate VideoExtended(root: Element, root': Element, entry: Element) {
    && FindIndex(root.children, "video").Some?
    && var i := FindIndex(root.children, "video").value;
    && root'.tag == root.tag && root'.attrs == root.attrs && root'.text == root.text
    && |root'.children| == |root.children|
    && (forall j :: 0 <= j < |root.children| && j != i ==> root'.children[j] == root.children[j])
    && root'.children[i].tag == "video"
    && root'.children[i].attrs == root.children[i].attrs
    && root'.children[i].text == root.children[i].text
    && root'.children[i].children == root.children[i].children + [entry]
  }

  /** `add_to_sources` on a parsed or default tree: no `video` raises; a
      source with the same path text means no write; otherwise one source
      entry goes after the existing children of `video`. */
  function AddSourceToTree(root: Element, p: KodiPath): (r: Result<Update, Error>)
    ensures FindIndex(root.children, "video").None? ==> r == Failure(MissingElement("video"))
    ensures FindIndex(root.children, "video").Some? ==>
              && (r.Failure? <==> HasSourceWithPath(VideoSources(root), p.path).Failure?)
              && (r == Success(Keep) <==> HasSourceWithPath(VideoSources(root), p.path) == Success(true))
              && (r.Failure? ==> r.error == MissingElement("path"))
    ensures r.Success? && r.value.Write? ==> VideoExtended(root, r.value.root, SourceEntry(p))
  {
    match FindIndex(root.children, "video")
    case None => Failure(MissingElement("video"))
    case Some(i) =>
      var video := root.children[i];
      match HasSourceWithPath(FindAll(video.children, "source"), p.path)
      case Failure(e) => Failure(e)
      case Success(duplicate) =>
        if duplicate then Success(Keep)
        else Success(Write(root.(children := root.children[i := video.(children := video.children + [SourceEntry(p)])])))
  }

  /** `add_to_sources`: an absent file is replaced by the default skeleton. */
  function AddToSources(file: Option<Element>, p: KodiPath): (r: Result<Update, Error>)
    ensures file.None? ==> r.Success? && r.value.Write?
    ensures r.Failure? <==>
              file.Some? && (FindIndex(file.value.children, "video").None?
                             || HasSourceWithPath(VideoSources(file.value), p.path).Failure?)
    ensures r.Failure? ==>
              r.error == (if FindIndex(file.value.children, "video").None? then MissingElement("video") else MissingElement("path"))
    ensures r.Success? && r.value.Write? ==>
              VideoExtended(if file.Some? then file.value else DefaultSourcesXml(), r.value.root, SourceEntry(p))
    ensures r == Success(Keep) <==>
              file.Some? && FindIndex(file.value.children, "video").Some?
              && HasSourceWithPath(VideoSources(file.value), p.path) == Success(true)
  {
    if file.None? then
      DefaultSourcesXmlVideo();
      assert FindAll(Category("video").children, "source") == [];
      AddSourceToTree(DefaultSourcesXml(), p)
    else
      AddSourceToTree(file.value, p)
  }

  /** The skeleton with one source after the `default` placeholder of `video`. */
  function SkeletonWith(p: KodiPath): Element {
    DefaultSourcesXml().(children := DefaultSourcesXml().children[1 :=
      Category("video").(children := [DefaultMarker(), SourceEntry(p)])])
  }

  /** Registering in an absent file writes the skeleton with exactly the new
      source after the `default` placeholder of `video`. */
  lemma AddToAbsentSources(p: KodiPath)
    ensures AddToSources(None, p) == Success(Write(SkeletonWith(p)))
  {
    DefaultSourcesXmlVideo();
    var video := Category("video");
    assert FindAll(video.children, "source") == [];
    assert video.children + [SourceEntry(p)] == [DefaultMarker(), SourceEntry(p)];
  }

  /** What a write leaves under `video`: the old sources and then the new one. */
  lemma WrittenSources(root: Element, p: KodiPath)
    requires AddSourceToTree(root, p).Success? && AddSourceToTree(root, p).value.Write?
    ensures var after := AddSourceToTree(root, p).value.root;
            && FindIndex(after.children, "video") == FindIndex(root.children, "video")
            && VideoSources(after) == VideoSources(root) + [SourceEntry(p)]
  {
    var after := AddSourceToTree(root, p).value.root;
    var i := FindIndex(root.children, "video").value;
    FindIndexAfterReplace(root.children, "video", i, after.children[i]);
    assert after.children == root.children[i := after.children[i]];
    FindAllAppend(root.children[i].children, SourceEntry(p), "source");
  }

  /** After a write, `video` holds exactly one source with the path. */
  lemma AddToSourcesWritesOne(file: Option<Element>, p: KodiPath)
    requires AddToSources(file, p).Success? && AddToSources(file, p).value.Write?
    ensures var root := AddToSources(file, p).value.root;
            FindIndex(root.children, "video").Some? && CountWithPath(VideoSources(root), p.path) == 1
  {
    var before := if file.Some? then file.value else DefaultSourcesXml();
    WrittenSources(before, p);
    CountWithPathAppend(VideoSources(before), SourceEntry(p), p.path);
    SourceEntryHasPath(p);
  }

  /** A list whose duplicate test succeeds, extended by a source with the
      path, tests positive. */
  lemma HasSourceWithPathAppend(sources: seq<Element>, x: Element, path: string)
    requires HasSourceWithPath(sources, path).Success? && HasPath(x, path)
    ensures HasSourceWithPath(sources + [x], path) == Success(true)
  {
  }

  /** A tree just written already holds the descriptor's source. */
  lemma AddSourceTwiceKeeps(root: Element, p: KodiPath)
    requires AddSourceToTree(root, p).Success? && AddSourceToTree(root, p).value.Write?
    ensures AddSourceToTree(AddSourceToTree(root, p).value.root, p) == Success(Keep)
  {
    WrittenSources(root, p);
    SourceEntryHasPath(p);
    HasSourceWithPathAppend(VideoSources(root), SourceEntry(p), p.path);
  }

  /** Registering the same descriptor again changes nothing: the second run
      finds the source the first one wrote, or fails exactly as the first did. */
  lemma AddToSourcesIdempotent(file: Option<Element>, p: KodiPath)
    ensures var once := Stored(file, AddToSources(file, p));
            Stored(once, AddToSources(once, p)) == once
    ensures AddToSources(file, p).Success? ==>
              AddToSources(Stored(file, AddToSources(file, p)), p) == Success(Keep)
  {
    var r := AddToSources(file, p);
    if r.Success? && r.value.Write? {
      AddSourceTwiceKeeps(if file.Some? then file.value else DefaultSourcesXml(), p);
    }
  }

  /** `clear_video_sources` on a parsed tree: no `video` raises; otherwise
      every `source` child of `video` goes and every other node stays. */
  function ClearVideoSourcesTree(root: Element): (r: Result<Element, Error>)
    ensures r.Failure? <==> FindIndex(root.children, "video").None?
    ensures r.Failure? ==> r.error == MissingElement("video")
    ensures r.Success? ==>
              var i := FindIndex(root.children, "video").value;
              && r.value.tag == root.tag && r.value.attrs == root.attrs && r.value.text == root.text
              && |r.value.children| == |root.children|
              && (forall j :: 0 <= j < |root.children| && j != i ==> r.value.children[j] == root.children[j])
              && r.value.children[i].tag == "video"
              && r.value.children[i].attrs == root.children[i].attrs
              && r.value.children[i].text == root.children[i].text
              && r.value.children[i].children == Without(root.children[i].children, "source")
              && (forall x :: x in r.value.children[i].children <==> x in root.children[i].children && x.tag != "source")
  {
    match FindIndex(root.children, "video")
    case None => Failure(MissingElement("video"))
    case Some(i) =>
      var video := root.children[i];
      Success(root.(children := root.children[i := video.(children := Without(video.children, "source"))]))
  }

  /** The removal loop of `clear_video_sources`: collects the `source`
      children, then removes them one by one. */
  method RemoveVideoSources(video: Element) returns (r: Element)
    ensures r == video.(children := Without(video.children, "source"))
  {
    var videoSources := FindAll(video.children, "source");
    var children := video.children;
    DropNoneTagged(video.children, "source");
    var i := 0;
    while i < |videoSources|
      invariant 0 <= i <= |videoSources|
      invariant children == DropTagged(video.children, "source", i)
    {
      RemoveNextTagged(video.children, "source", i);
      children := RemoveFirst(children, videoSources[i]);
      i := i + 1;
    }
    DropAllTagged(video.children, "source");
    r := video.(children := children);
  }

  /** `clear_video_sources`: an absent file is left absent and unwritten. */
  function ClearVideoSources(file: Option<Element>): (r: Result<Update, Error>)
    ensures file.None? ==> r == Success(Keep)
    ensures r.Failure? <==> file.Some? && FindIndex(file.value.children, "video").None?
    ensures r.Failure? ==> r.error == MissingElement("video")
    ensures file.Some? && r.Success? ==> r == Success(Write(ClearVideoSourcesTree(file.value).value))
    ensures r.Success? && r.value.Write? ==>
              FindIndex(r.value.root.children, "video").Some? && VideoSources(r.value.root) == []
  {
    match file
    case None => Success(Keep)
    case Some(root) =>
      match ClearVideoSourcesTree(root)
      case Failure(e) => Failure(e)
      case Success(cleared) =>
        ClearLeavesNoVideoSource(root);
        Success(Write(cleared))
  }

  /** After a successful clear, `video` has no source left. */
  lemma ClearLeavesNoVideoSource(root: Element)
    requires ClearVideoSourcesTree(root).Success?
    ensures var cleared := ClearVideoSourcesTree(root).value;
            FindIndex(cleared.children, "video").Some? && VideoSources(cleared) == []
  {
    var cleared := ClearVideoSourcesTree(root).value;
    var i := FindIndex(root.children, "video").value;
    FindIndexAfterReplace(root.children, "video", i, cleared.children[i]);
    assert cleared.children == root.children[i := cleared.children[i]];
    WithoutIdempotent(root.children[i].children, "source");
  }

  /** Clearing a second time changes nothing. */
  lemma ClearVideoSourcesIdempotent(file: Option<Element>)
    ensures var once := Stored(file, ClearVideoSources(file));
            Stored(once, ClearVideoSources(once)) == once
  {
    if file.Some? && ClearVideoSourcesTree(file.value).Success? {
      var root := file.value;
      var cleared := ClearVideoSourcesTree(root).value;
      var i := FindIndex(root.children, "video").value;
      var video := root.children[i];
      assert cleared == root.(children := root.children[i := video.(children := Without(video.children, "source"))]);
      FindIndexAfterReplace(root.children, "video", i, cleared.children[i]);
      WithoutIdempotent(video.children, "source");
      assert cleared.children[i := cleared.children[i]] == cleared.children;
      assert ClearVideoSourcesTree(cleared) == Success(cleared);
    }
  }
}
