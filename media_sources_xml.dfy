/** The media-sources document (`userdata/mediasources.xml`): its default
    skeleton and the merge that registers a path as a numbered network
    `location`. */
module MediaSourcesXml {
  import opened Wrappers
  import opened Errors
  import opened Xml
  import opened KodiPaths
  import opened Numerals

  /** The document written when mediasources.xml is absent. */
  function DefaultMediaSourcesXml(): (r: Element)
    ensures r == MediaSourcesWith([])
    ensures r.tag == "mediasources"
    ensures FindIndex(r.children, "network") == Some(0) && ExistingLocations(r) == []
  {
    Element("mediasources", map[], None, [Bare("network")])
  }

  /** The integer id of a location: one without an `id` attribute counts
      as -2, an `id` that is not an integer literal raises. */
  function IdOf(location: Element): (r: Result<int, Error>)
    ensures "id" !in location.attrs ==> r == Success(-2)
    ensures r.Success? <==> "id" !in location.attrs || IsIntLiteral(location.attrs["id"])
    ensures r.Failure? ==> "id" in location.attrs && r.error == InvalidLiteral(location.attrs["id"])
  {
    if "id" in location.attrs then ParseInt(location.attrs["id"]) else Success(-2)
  }

  /** An `id` as `str()` writes it reads back as the value it spells. */
  lemma IdOfCanonical(location: Element)
    requires "id" in location.attrs && IsCanonicalInt(location.attrs["id"])
    ensures IdOf(location).Success? && IntToString(IdOf(location).value) == location.attrs["id"]
  {
    IntToStringParseInt(location.attrs["id"]);
  }

  /** Python's `max` over the ids of `locations`, evaluated left to right. */
  function MaxId(locations: seq<Element>): (r: Result<int, Error>)
    ensures r.Failure? <==> locations == [] || exists l :: l in locations && IdOf(l).Failure?
    ensures r.Success? ==> forall l :: l in locations ==> IdOf(l).Success? && IdOf(l).value <= r.value
    ensures r.Success? ==> exists l :: l in locations && IdOf(l) == Success(r.value)
    ensures r.Failure? ==> (locations == [] && r.error == EmptySequence)
                           || exists l :: l in locations && IdOf(l) == Failure(r.error)
  {
    if locations == [] then Failure(EmptySequence)
    else
      assert forall l :: l in locations <==> l == locations[0] || l in locations[1..];
      match IdOf(locations[0])
      case Failure(e) => Failure(e)
      case Success(v) =>
        if |locations| == 1 then Success(v)
        else
          match MaxId(locations[1..])
          case Failure(e) => Failure(e)
          case Success(m) => Success(if v >= m then v else m)
  }

  /** `__next_media_source_id`: one more than the largest id of the network's
      locations, as a decimal string. */
  function NextMediaSourceId(network: Element): (r: Result<string, Error>)
    ensures var locations := FindAll(network.children, "location");
            r.Failure? <==> locations == [] || exists l :: l in locations && IdOf(l).Failure?
    ensures var locations := FindAll(network.children, "location");
            r.Failure? ==> (locations == [] && r.error == EmptySequence)
                           || exists l :: l in locations && IdOf(l) == Failure(r.error)
    ensures r.Success? ==>
              && ParseInt(r.value).Success?
              && r.value == IntToString(ParseInt(r.value).value)
              && var v := ParseInt(r.value).value;
                 && (forall l :: l in FindAll(network.children, "location") ==> IdOf(l).value < v)
                 && exists l :: l in FindAll(network.children, "location") && IdOf(l) == Success(v - 1)
  {
    match MaxId(FindAll(network.children, "location"))
    case Failure(e) => Failure(e)
    case Success(m) =>
      ParseIntToString(m + 1);
      Success(IntToString(m + 1))
  }

  /** A new `location` before its id is set. */
  function LocationEntry(path: string): Element {
    Element("location", map[], Some(path), [])
  }

  predicate HasLocation(locations: seq<Element>, path: string) {
    exists l :: l in locations && l.text == Some(path)
  }

  /** The `network` node the merge works on: the first one, or a new empty
      one when the document has none. */
  function NetworkOf(root: Element): Element {
    match FindIndex(root.children, "network")
    case Some(i) => root.children[i]
    case None => Bare("network")
  }

  /** The locations already registered. */
  function ExistingLocations(root: Element): seq<Element> {
    FindAll(NetworkOf(root).children, "location")
  }

  /** The id `__next_media_source_id` computes once the new location, still
      without an id, has been appended to the network. */
  function AssignedId(root: Element, p: KodiPath): Result<string, Error> {
    var network := NetworkOf(root);
    NextMediaSourceId(network.(children := network.children + [LocationEntry(p.path)]))
  }

  /** `root'` is `root` with `entry` after the children of its first
      `network`, or with a new `network` holding only `entry` appended when it
      had none; every other node is left as it was. */
  ghost predicate NetworkExtended(root: Element, root': Element, entry: Element) {
    && root'.tag == root.tag && root'.attrs == root.attrs && root'.text == root.text
    && match FindIndex(root.children, "network")
       case None => root'.children == root.children + [Bare("network").(children := [entry])]
       case Some(i) =>
         && |root'.children| == |root.children|
         && (forall j :: 0 <= j < |root.children| && j != i ==> root'.children[j] == root.children[j])
         && root'.children[i] == root.children[i].(children := root.children[i].children + [entry])
  }

  /** `add_to_mediasources` on a parsed or default tree. */
  function AddLocationToTree(root: Element, p: KodiPath): (r: Result<Update, Error>)
    ensures r == Success(Keep) <==> HasLocation(ExistingLocations(root), p.path)
    ensures r.Failure? <==> !HasLocation(ExistingLocations(root), p.path) && AssignedId(root, p).Failure?
    ensures r.Failure? ==> exists l :: l in ExistingLocations(root) && IdOf(l) == Failure(r.error)
    ensures r.Success? && r.value.Write? ==>
              && AssignedId(root, p).Success?
              && NetworkExtended(root, r.value.root, LocationEntry(p.path).(attrs := map["id" := AssignedId(root, p).value]))
  {
    var found := FindIndex(root.children, "network");
    var tree := if found.Some? then root else root.(children := root.children + [Bare("network")]);
    var i := if found.Some? then found.value else |root.children|;
    var network := tree.children[i];
    if HasLocation(FindAll(network.children, "location"), p.path) then Success(Keep)
    else
      var location := LocationEntry(p.path);
      match NextMediaSourceId(network.(children := network.children + [location]))
      case Failure(e) => Failure(e)
      case Success(id) =>
        var network' := network.(children := network.children + [location.(attrs := map["id" := id])]);
        assert found.None? ==> network == Bare("network") && network' == Bare("network").(children := [location.(attrs := map["id" := id])]);
        assert found.None? ==> tree.children[i := network'] == root.children + [network'];
        Success(Write(tree.(children := tree.children[i := network'])))
  }

  /** `add_to_mediasources`: an absent file is replaced by the default skeleton. */
  function AddToMediaSources(file: Option<Element>, p: KodiPath): (r: Result<Update, Error>)
    ensures file.None? ==> r.Success? && r.value.Write?
    ensures r == Success(Keep) <==> file.Some? && HasLocation(ExistingLocations(file.value), p.path)
    ensures r.Failure? <==>
              file.Some? && !HasLocation(ExistingLocations(file.value), p.path) && AssignedId(file.value, p).Failure?
    ensures r.Failure? ==> exists l :: l in ExistingLocations(file.value) && IdOf(l) == Failure(r.error)
    ensures var root := if file.Some? then file.value else DefaultMediaSourcesXml();
            r.Success? && r.value.Write? ==>
              && AssignedId(root, p).Success?
              && NetworkExtended(root, r.value.root, LocationEntry(p.path).(attrs := map["id" := AssignedId(root, p).value]))
  {
    if file.None? then
      var root := DefaultMediaSourcesXml();
      assert NetworkOf(root) == Bare("network");
      assert FindAll([LocationEntry(p.path)], "location") == [LocationEntry(p.path)];
      assert MaxId([LocationEntry(p.path)]) == Success(-2);
      AddLocationToTree(root, p)
    else
      AddLocationToTree(file.value, p)
  }

  /** `v` is one more than the largest of -2 and the ids of `locations`. */
  ghost predicate IsNextId(locations: seq<Element>, v: int) {
    && v - 1 >= -2
    && (forall l :: l in locations ==> IdOf(l).Success? && IdOf(l).value < v)
    && (v - 1 == -2 || exists l :: l in locations && IdOf(l) == Success(v - 1))
  }

  /** Python's `max` over existing ids followed by one id of -2. */
  lemma MaxIdWithMinusTwo(existing: seq<Element>, x: Element)
    requires IdOf(x) == Success(-2)
    ensures MaxId(existing + [x]).Success? <==> forall l :: l in existing ==> IdOf(l).Success?
    ensures MaxId(existing + [x]).Success? ==> IsNextId(existing, MaxId(existing + [x]).value + 1)
  {
  }

  /** The id rule: with the new location counted as -2, the id is
      `max(-2, existing ids) + 1`; one unparsable existing id makes it fail. */
  lemma AssignedIdRule(root: Element, p: KodiPath)
    ensures AssignedId(root, p).Success? <==> forall l :: l in ExistingLocations(root) ==> IdOf(l).Success?
    ensures AssignedId(root, p).Success? ==>
              && ParseInt(AssignedId(root, p).value).Success?
              && IsNextId(ExistingLocations(root), ParseInt(AssignedId(root, p).value).value)
              && AssignedId(root, p).value == IntToString(ParseInt(AssignedId(root, p).value).value)
  {
    var network := NetworkOf(root);
    var location := LocationEntry(p.path);
    FindAllAppend(network.children, location, "location");
    MaxIdWithMinusTwo(ExistingLocations(root), location);
    var m := MaxId(ExistingLocations(root) + [location]);
    if m.Success? {
      ParseIntToString(m.value + 1);
    }
  }

  /** The new id differs from every id attribute already in the network. */
  lemma AssignedIdIsFresh(root: Element, p: KodiPath, l: Element)
    requires AssignedId(root, p).Success?
    requires l in ExistingLocations(root) && "id" in l.attrs
    ensures l.attrs["id"] != AssignedId(root, p).value
  {
    AssignedIdRule(root, p);
    var id := AssignedId(root, p).value;
    assert IdOf(l) == ParseInt(l.attrs["id"]);
    ParseIntToString(ParseInt(id).value);
    IntToStringDistinct(ParseInt(id).value, l.attrs["id"]);
  }

  /** A numbered `location`. */
  function Location(path: string, id: string): Element {
    Element("location", map["id" := id], Some(path), [])
  }

  /** A document whose only network holds `locations`. */
  function MediaSourcesWith(locations: seq<Element>): Element {
    Element("mediasources", map[], None, [Bare("network").(children := locations)])
  }

  /** The first location of an absent file gets id "-1". */
  lemma FirstLocationIdIsMinusOne(p: KodiPath)
    ensures AddToMediaSources(None, p) == Success(Write(MediaSourcesWith([Location(p.path, "-1")])))
  {
    var first := Location(p.path, "-1");
    assert FindIndex(DefaultMediaSourcesXml().children, "network") == Some(0);
    assert FindAll([LocationEntry(p.path)], "location") == [LocationEntry(p.path)];
    assert MaxId([LocationEntry(p.path)]) == Success(-2);
    assert IntToString(-1) == "-1";
    assert NextMediaSourceId(Bare("network").(children := [LocationEntry(p.path)])) == Success("-1");
    var empty: seq<Element> := [];
    assert empty + [LocationEntry(p.path)] == [LocationEntry(p.path)];
    assert empty + [first] == [first];
    assert !HasLocation(FindAll(empty, "location"), p.path);
    assert LocationEntry(p.path).(attrs := map["id" := "-1"]) == first;
    assert [Bare("network")][0 := Bare("network").(children := [first])] == [Bare("network").(children := [first])];
  }

  /** After a location numbered -1, the next id is "0". */
  lemma IdAfterMinusOne(p: KodiPath, q: KodiPath)
    ensures NextMediaSourceId(Bare("network").(children := [Location(p.path, "-1"), LocationEntry(q.path)])) == Success("0")
  {
    var first := Location(p.path, "-1");
    assert ParseInt("-1") == Success(-1);
    assert FindAll([first, LocationEntry(q.path)], "location") == [first, LocationEntry(q.path)];
    assert MaxId([first, LocationEntry(q.path)]) == Success(-1);
    assert IntToString(0) == "0";
  }

  /** The next distinct path gets id "0". */
  lemma SecondLocationIdIsZero(p: KodiPath, q: KodiPath)
    requires p.path != q.path
    ensures AddToMediaSources(Some(MediaSourcesWith([Location(p.path, "-1")])), q)
            == Success(Write(MediaSourcesWith([Location(p.path, "-1"), Location(q.path, "0")])))
  {
    var first := Location(p.path, "-1");
    var second := Location(q.path, "0");
    var once := MediaSourcesWith([first]);
    assert FindIndex(once.children, "network") == Some(0);
    assert FindAll([first], "location") == [first];
    assert !HasLocation([first], q.path);
    IdAfterMinusOne(p, q);
    assert [first] + [LocationEntry(q.path)] == [first, LocationEntry(q.path)];
    assert [first] + [second] == [first, second];
    assert LocationEntry(q.path).(attrs := map["id" := "0"]) == second;
    assert once.children[0 := Bare("network").(children := [first, second])] == [Bare("network").(children := [first, second])];
  }

  /** The number of locations whose text is `path`. */
  function CountLocations(locations: seq<Element>, path: string): (n: nat)
    ensures n == 0 <==> !HasLocation(locations, path)
  {
    if locations == [] then 0
    else
      assert forall l :: l in locations <==> l == locations[0] || l in locations[1..];
      (if locations[0].text == Some(path) then 1 else 0) + CountLocations(locations[1..], path)
  }

  lemma {:induction false} CountLocationsAppend(locations: seq<Element>, x: Element, path: string)
    ensures CountLocations(locations + [x], path) == CountLocations(locations, path) + (if x.text == Some(path) then 1 else 0)
  {
    if locations != [] {
      assert (locations + [x])[1..] == locations[1..] + [x];
      CountLocationsAppend(locations[1..], x, path);
    }
  }

  /** What a write leaves in the network: the old locations and then the new
      one, the only one with the path. */
  lemma WrittenLocations(root: Element, p: KodiPath)
    requires AddLocationToTree(root, p).Success? && AddLocationToTree(root, p).value.Write?
    ensures var root' := AddLocationToTree(root, p).value.root;
            && FindIndex(root'.children, "network").Some?
            && ExistingLocations(root') == ExistingLocations(root) + [LocationEntry(p.path).(attrs := map["id" := AssignedId(root, p).value])]
            && CountLocations(ExistingLocations(root'), p.path) == 1
  {
    var root' := AddLocationToTree(root, p).value.root;
    var entry := LocationEntry(p.path).(attrs := map["id" := AssignedId(root, p).value]);
    var network := NetworkOf(root);
    match FindIndex(root.children, "network")
    case None =>
      FindIndexAfterAppend(root.children, "network", root'.children[|root.children|]);
      assert root'.children == root.children + [root'.children[|root.children|]];
      assert NetworkOf(root').children == [entry];
      assert FindAll([entry], "location") == [entry];
    case Some(i) =>
      FindIndexAfterReplace(root.children, "network", i, root'.children[i]);
      assert root'.children == root.children[i := root'.children[i]];
      FindAllAppend(network.children, entry, "location");
    CountLocationsAppend(ExistingLocations(root), entry, p.path);
  }

  /** Registering the same path again changes nothing. */
  lemma AddToMediaSourcesIdempotent(file: Option<Element>, p: KodiPath)
    ensures var once := Stored(file, AddToMediaSources(file, p));
            Stored(once, AddToMediaSources(once, p)) == once
    ensures AddToMediaSources(file, p).Success? ==>
              AddToMediaSources(Stored(file, AddToMediaSources(file, p)), p) == Success(Keep)
  {
    var root := if file.Some? then file.value else DefaultMediaSourcesXml();
    var r := AddLocationToTree(root, p);
    if r.Success? && r.value.Write? {
      WrittenLocations(root, p);
      var entry := LocationEntry(p.path).(attrs := map["id" := AssignedId(root, p).value]);
      assert entry in ExistingLocations(r.value.root);
    }
  }
}
