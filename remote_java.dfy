/**
 * `JavaGuard._latestOpenJDK`, `_latestAdoptium` and `_latestCorretto`: the
 * choice of a JDK package to download. The HTTP requests are left out; what
 * they answer is a parameter, and only the selection of the package and
 * the building of its URL and file name are modelled.
 */
module RemoteJava {
  import opened JsRuntime
  import opened JavaPaths

  /** The download data both lookups resolve to (`OpenJDKData`). */
  datatype OpenJdkData = OpenJdkData(uri: string, size: JsNum, name: string)

  // ---------------------------------------------------------------------
  // Adoptium

  /** One entry of the Adoptium `assets/latest` answer, reduced to the fields the lookup reads. */
  datatype AdoptiumEntry = AdoptiumEntry(
    versionMajor: JsNum,
    os: string,
    imageType: string,
    architecture: string,
    link: string,
    size: JsNum,
    name: string)

  /** The request's outcome: an error, or the parsed JSON body. */
  datatype AdoptiumResponse = AdoptiumFailed | AdoptiumBody(entries: seq<AdoptiumEntry>)

  /** The operating system as Adoptium spells it. */
  function AdoptiumOs(p: Platform): string {
    if p.Win32? then "windows" else if p.Darwin? then "mac" else p.Name()
  }

  /** The `find` predicate: the requested major, this OS, a JDK image, x64. */
  predicate Matches(e: AdoptiumEntry, majorNum: JsNum, os: string) {
    StrictEq(e.versionMajor, majorNum) && e.os == os && e.imageType == "jdk" && e.architecture == "x64"
  }

  /** The index `find` stops at: the first match, or the length when nothing matches. */
  function FirstMatch(entries: seq<AdoptiumEntry>, majorNum: JsNum, os: string): (i: nat)
    ensures i <= |entries|
    ensures i < |entries| ==> Matches(entries[i], majorNum, os)
    ensures forall k :: 0 <= k < i ==> !Matches(entries[k], majorNum, os)
    decreases |entries|
  {
    if entries == [] then 0
    else if Matches(entries[0], majorNum, os) then 0
    else
      var j := FirstMatch(entries[1..], majorNum, os);
      assert forall k :: 1 <= k < j + 1 ==> entries[k] == entries[1..][k - 1];
      j + 1
  }

  /** `body.find(...)`; `None` is `undefined`. */
  function Find(entries: seq<AdoptiumEntry>, majorNum: JsNum, os: string): Option<AdoptiumEntry> {
    var i := FirstMatch(entries, majorNum, os);
    if i < |entries| then Some(entries[i]) else None
  }

  /** `_latestAdoptium(major)` given what the request answered. */
  function LatestAdoptium(p: Platform, major: string, response: AdoptiumResponse): Option<OpenJdkData> {
    match response
    case AdoptiumFailed => None
    case AdoptiumBody(entries) =>
      if |entries| > 0 then
        match Find(entries, StringToNumber(major), AdoptiumOs(p))
        case Some(e) => Some(OpenJdkData(e.link, e.size, e.name))
        case None => None
      else None
  }

  /**
   * The lookup answers the package of the first entry that matches, and
   * `null` exactly when the request failed or no entry matches.
   */
  lemma LatestAdoptiumFirstMatch(p: Platform, major: string, response: AdoptiumResponse)
    ensures LatestAdoptium(p, major, response).None? <==>
      response.AdoptiumFailed? ||
      forall e :: e in response.entries ==> !Matches(e, StringToNumber(major), AdoptiumOs(p))
    ensures LatestAdoptium(p, major, response).Some? ==>
      exists i :: 0 <= i < |response.entries| && FirstMatchAt(response.entries, StringToNumber(major), AdoptiumOs(p), i) &&
        LatestAdoptium(p, major, response).value ==
          OpenJdkData(response.entries[i].link, response.entries[i].size, response.entries[i].name)
  {
    if response.AdoptiumBody? {
      var entries := response.entries;
      var majorNum, os := StringToNumber(major), AdoptiumOs(p);
      var i := FirstMatch(entries, majorNum, os);
      if i == |entries| {
        forall e | e in entries ensures !Matches(e, majorNum, os) {
          var k :| 0 <= k < |entries| && entries[k] == e;
        }
      } else {
        assert entries[i] in entries;
        assert FirstMatchAt(entries, majorNum, os, i);
      }
    }
  }

  /** Entry `i` matches and none before it does. */
  predicate FirstMatchAt(entries: seq<AdoptiumEntry>, majorNum: JsNum, os: string, i: int) {
    0 <= i < |entries| && Matches(entries[i], majorNum, os) &&
    forall k :: 0 <= k < i ==> !Matches(entries[k], majorNum, os)
  }

  /** A major that is not a number matches no entry, so the lookup answers `null`. */
  lemma NonNumericMajorFindsNothing(p: Platform, major: string, response: AdoptiumResponse)
    requires StringToNumber(major).NaN?
    ensures LatestAdoptium(p, major, response).None?
  {
    LatestAdoptiumFirstMatch(p, major, response);
  }

  // ---------------------------------------------------------------------
  // Corretto

  /** The operating system and archive extension Corretto publishes for a platform. */
  function CorrettoOs(p: Platform): string {
    match p
    case Win32 => "windows"
    case Darwin => "macos"
    case Linux => "linux"
    case Other(n) => n
  }

  function CorrettoExt(p: Platform): string {
    if p.Win32? then "zip" else "tar.gz"
  }

  const CorrettoDir: string := "https://corretto.aws/downloads/latest"

  /** The archive's file name. */
  function CorrettoFileName(major: string, p: Platform): string {
    "amazon-corretto-" + major + "-x64-" + CorrettoOs(p) + "-jdk." + CorrettoExt(p)
  }

  /** The download URL. */
  function CorrettoUrl(major: string, p: Platform): string {
    CorrettoDir + "/" + CorrettoFileName(major, p)
  }

  /** What the HEAD request answered: an error, or a status and the `content-length` header. */
  datatype HeadResponse = HeadFailed | HeadAnswer(statusCode: int, contentLength: Option<string>)

  /** `parseInt(resp.headers['content-length'])`; a missing header reads as `undefined`, which is NaN. */
  function ContentLength(header: Option<string>): JsNum {
    match header
    case Some(s) => ParseInt(s)
    case None => NaN
  }

  /** `_latestCorretto(major)` given what the HEAD request answered. */
  function LatestCorretto(p: Platform, major: string, response: HeadResponse): Option<OpenJdkData> {
    var url := CorrettoUrl(major, p);
    match response
    case HeadFailed => None
    case HeadAnswer(status, header) =>
      if status == 200 then Some(OpenJdkData(url, ContentLength(header), AfterLast(url, '/')))
      else None
  }

  /**
   * The lookup answers exactly on status 200; it then names the archive
   * by the URL's last path segment, which for a major and a platform name
   * without `/` is the whole file name.
   */
  lemma LatestCorrettoName(p: Platform, major: string, response: HeadResponse)
    requires '/' !in major && '/' !in p.Name()
    ensures LatestCorretto(p, major, response).Some? <==> response.HeadAnswer? && response.statusCode == 200
    ensures LatestCorretto(p, major, response).Some? ==>
      LatestCorretto(p, major, response).value.uri == CorrettoUrl(major, p) &&
      LatestCorretto(p, major, response).value.name == CorrettoFileName(major, p)
  {
    var name := CorrettoFileName(major, p);
    assert '/' !in CorrettoOs(p) && '/' !in CorrettoExt(p);
    assert '/' !in name;
    AfterLastOf(CorrettoDir, '/', name);
  }

  // ---------------------------------------------------------------------
  // The choice of provider

  /** `_latestOpenJDK(major = '8')`: Corretto on macOS, Adoptium elsewhere. */
  function LatestOpenJdk(p: Platform, major: Option<string>, adoptium: AdoptiumResponse, corretto: HeadResponse): Option<OpenJdkData> {
    var m := major.GetOr("8");
    if p.Darwin? then LatestCorretto(p, m, corretto) else LatestAdoptium(p, m, adoptium)
  }

  /** With no major, macOS gets the Corretto 8 archive for macOS, named by its file name. */
  lemma DefaultDarwinDownload(adoptium: AdoptiumResponse, size: Option<string>)
    ensures LatestOpenJdk(Darwin, None, adoptium, HeadAnswer(200, size)) ==
      Some(OpenJdkData(CorrettoUrl("8", Darwin), ContentLength(size), CorrettoFileName("8", Darwin)))
  {
    LatestCorrettoName(Darwin, "8", HeadAnswer(200, size));
  }

  /**
   * macOS asks only Corretto and every other platform only Adoptium, and a
   * missing major means major 8.
   */
  lemma ProviderByPlatform(p: Platform, major: Option<string>, adoptium: AdoptiumResponse, adoptium': AdoptiumResponse,
                           corretto: HeadResponse, corretto': HeadResponse)
    ensures p.Darwin? ==> LatestOpenJdk(p, major, adoptium, corretto) == LatestOpenJdk(p, major, adoptium', corretto)
    ensures !p.Darwin? ==> LatestOpenJdk(p, major, adoptium, corretto) == LatestOpenJdk(p, major, adoptium, corretto')
    ensures LatestOpenJdk(p, None, adoptium, corretto) == LatestOpenJdk(p, Some("8"), adoptium, corretto)
  {
  }
}
