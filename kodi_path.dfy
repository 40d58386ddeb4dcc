/** The source descriptor `KodiPath`: a display name, a path and a content type,
    the two fixed content-keyed tables, the values of the `path` row it inserts,
    and the construction from a configuration file's `config` section. */
module KodiPaths {
  import opened Wrappers
  import opened Errors

  /** The columns of Kodi's `path` table the row fills, in VALUES order. */
  const Keys: seq<string> := ["strPath", "strContent", "strScraper", "strHash", "scanRecursive",
                              "useFolderNames", "strSettings", "noUpdate", "exclude", "dateAdded", "idParentPath"]

  const ContentScraperMapping: map<string, string> := map[
    "tvshows" := "metadata.tvshows.themoviedb.org",
    "movies" := "metadata.themoviedb.org"
  ]

  const ContentSettingsMapping: map<string, string> := map[
    "tvshows" := "<settings version=\"2\"><setting id=\"alsoimdb\" default=\"true\">false</setting><setting id=\"certprefix\" default=\"true\"></setting><setting id=\"fallback\">true</setting><setting id=\"fanarttvart\">true</setting><setting id=\"keeporiginaltitle\" default=\"true\">false</setting><setting id=\"language\" default=\"true\">en</setting><setting id=\"RatingS\" default=\"true\">Themoviedb</setting><setting id=\"tmdbart\">true</setting><setting id=\"tmdbcertcountry\" default=\"true\">us</setting><setting id=\"tvdbwidebanners\">true</setting></settings>",
    "movies" := "<settings version=\"2\"><setting id=\"certprefix\" default=\"true\">Rated </setting><setting id=\"fanart\">true</setting><setting id=\"imdbanyway\" default=\"true\">false</setting><setting id=\"keeporiginaltitle\" default=\"true\">false</setting><setting id=\"language\" default=\"true\">en</setting><setting id=\"RatingS\" default=\"true\">TMDb</setting><setting id=\"tmdbcertcountry\" default=\"true\">us</setting><setting id=\"trailer\">true</setting></settings>"
  ]

  /** The content types both tables know. */
  predicate IsSupportedContent(content: string) {
    content == "tvshows" || content == "movies"
  }

  /** A descriptor is built from any three strings; an unknown content type
      is only noticed when a table is consulted. */
  datatype KodiPath = KodiPath(name: string, path: string, content: string)

  function ScraperForContentType(content: string): (r: Result<string, Error>)
    ensures r.Success? <==> IsSupportedContent(content)
    ensures r.Failure? ==> r.error == KeyError(content)
  {
    if content in ContentScraperMapping then Success(ContentScraperMapping[content])
    else Failure(KeyError(content))
  }

  function SettingsForContentType(content: string): (r: Result<string, Error>)
    ensures r.Success? <==> IsSupportedContent(content)
    ensures r.Failure? ==> r.error == KeyError(content)
  {
    if content in ContentSettingsMapping then Success(ContentSettingsMapping[content])
    else Failure(KeyError(content))
  }

  /** The values `insert_string` puts in its VALUES clause, one per column of
      `Keys`; the scraper is looked up before the settings. */
  function RowValues(p: KodiPath): (r: Result<seq<string>, Error>)
    ensures r.Success? <==> IsSupportedContent(p.content)
    ensures r.Failure? ==> r.error == KeyError(p.content)
    ensures r.Success? ==> |r.value| == |Keys|
  {
    match ScraperForContentType(p.content)
    case Failure(e) => Failure(e)
    case Success(scraper) =>
      match SettingsForContentType(p.content)
      case Failure(e) => Failure(e)
      case Success(settings) => Success([p.path, p.content, scraper, "", "1", "0", settings, "0", "0", "", ""])
  }

  /** The column each value of a row is stored in, as the INSERT statement
      pairs its column list with its VALUES list. */
  function Assignments(row: seq<string>): seq<(string, string)>
    requires |row| == |Keys|
  {
    seq(|Keys|, i requires 0 <= i < |Keys| => (Keys[i], row[i]))
  }

  /** Column by column, the row holds the descriptor's path and content, the
      scraper and settings the tables give for that content, and the fixed
      placeholders of the columns the tool does not manage. */
  lemma RowValuesByColumn(p: KodiPath)
    requires IsSupportedContent(p.content)
    ensures RowValues(p).Success?
    ensures Assignments(RowValues(p).value) == [
      ("strPath", p.path), ("strContent", p.content),
      ("strScraper", ContentScraperMapping[p.content]), ("strHash", ""),
      ("scanRecursive", "1"), ("useFolderNames", "0"),
      ("strSettings", ContentSettingsMapping[p.content]), ("noUpdate", "0"),
      ("exclude", "0"), ("dateAdded", ""), ("idParentPath", "")]
  {
  }

  /** The local address the pCloud bridge serves on; the port comes from the
      configuration. */
  const LocalHost: string := "http://127.0.0.1:"

  function PathForPort(port: string): string {
    LocalHost + port + "/"
  }

  /** `KodiPath.from_config` after the file is read: the `config` section and
      its three keys are looked up in the order the source does. */
  function FromConfig(config: map<string, map<string, string>>): (r: Result<KodiPath, Error>)
    ensures r.Success? <==> "config" in config && "source_name" in config["config"]
                            && "pcloud_port" in config["config"] && "source_content" in config["config"]
    ensures "config" !in config ==> r == Failure(KeyError("config"))
    ensures r.Success? ==>
              && r.value.name == config["config"]["source_name"]
              && r.value.content == config["config"]["source_content"]
              && r.value.path == LocalHost + config["config"]["pcloud_port"] + "/"
  {
    if "config" !in config then Failure(KeyError("config"))
    else
      var conf := config["config"];
      if "source_name" !in conf then Failure(KeyError("source_name"))
      else if "pcloud_port" !in conf then Failure(KeyError("pcloud_port"))
      else if "source_content" !in conf then Failure(KeyError("source_content"))
      else
        Success(KodiPath(conf["source_name"], PathForPort(conf["pcloud_port"]), conf["source_content"]))
  }

  /** Two configurations give the same path, the key every store deduplicates
      on, exactly when they name the same port. */
  lemma FromConfigSamePath(c1: map<string, map<string, string>>, c2: map<string, map<string, string>>)
    requires FromConfig(c1).Success? && FromConfig(c2).Success?
    ensures FromConfig(c1).value.path == FromConfig(c2).value.path
            <==> c1["config"]["pcloud_port"] == c2["config"]["pcloud_port"]
  {
    var path1, path2 := FromConfig(c1).value.path, FromConfig(c2).value.path;
    if path1 == path2 {
      assert c1["config"]["pcloud_port"] == path1[|LocalHost|..|path1| - 1];
      assert c2["config"]["pcloud_port"] == path2[|LocalHost|..|path2| - 1];
    }
  }
}
