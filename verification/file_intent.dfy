/** Opening a GPX file handed to the application by a link or a share
    intent (`handleFileIntent` in app/_layout.tsx).

    Parsing the link's query string, reading the file and turning its text
    into an XML tree are parameters; the alert and the navigation become the
    outcome value. */
module FileIntent {
  import opened Wrappers
  import opened Strings
  import opened Store
  import opened GpxParser

  const AppScheme: string := "refill://"
  const DefaultFileName: string := "route.gpx"

  /** Launch URLs that never carry a file. */
  predicate IsLaunchUrl(url: string) {
    StartsWith(url, "exp://") || StartsWith(url, "http://") || StartsWith(url, "https://")
  }

  predicate IsFileUri(uri: string) {
    StartsWith(uri, "content://") || StartsWith(uri, "file://")
  }

  /** What happened to one incoming URL. `Loaded` is followed by navigation
      to the POI selection screen; `NoRoute` and `LoadFailed` show an
      alert. */
  datatype IntentOutcome =
    | Skipped
    | LoadFailed(uri: string)
    | NoRoute(uri: string)
    | Loaded(uri: string, fileName: string)

  /** The file URI an incoming URL designates, if any: launch URLs are
      skipped, an app-scheme URL designates its non-empty `uri` query
      parameter, and only content and file URIs qualify. `uriParam` is the
      `uri` query parameter of a parsed URL. */
  function FileUriOf(url: string, uriParam: string -> Option<string>): (r: Option<string>)
    ensures r.Some? ==> IsFileUri(r.value)
    ensures IsLaunchUrl(url) ==> r.None?
    ensures !StartsWith(url, AppScheme) ==> (r.Some? <==> !IsLaunchUrl(url) && IsFileUri(url))
    ensures !StartsWith(url, AppScheme) && r.Some? ==> r.value == url
    ensures StartsWith(url, AppScheme) ==>
      (r.Some? <==> uriParam(url).Some? && Truthy(uriParam(url).value) && IsFileUri(uriParam(url).value))
    ensures StartsWith(url, AppScheme) && r.Some? ==> r.value == uriParam(url).value
  {
    AppSchemeIsNotLaunch(url);
    if IsLaunchUrl(url) then None
    else
      var fileUri :=
        if StartsWith(url, AppScheme) then
          (if uriParam(url).Some? && Truthy(uriParam(url).value) then Some(uriParam(url).value) else None)
        else Some(url);
      if fileUri.Some? && IsFileUri(fileUri.value) then fileUri else None
  }

  lemma AppSchemeIsNotLaunch(url: string)
    ensures StartsWith(url, AppScheme) ==> !IsLaunchUrl(url)
  {
    if StartsWith(url, AppScheme) {
      assert url[0] == 'r';
    }
  }

  /** `fileUri.split('/').pop() || 'route.gpx'`. */
  function FileName(uri: string): (r: string)
    ensures Truthy(r) && '/' !in r
  {
    OrElse(AfterLast(uri, '/'), DefaultFileName)
  }

  /** The file name is the text after the last '/' when that is non-empty,
      and the default name otherwise (an empty URI or one ending in '/'). */
  lemma FileNameSpec(uri: string)
    ensures FileName(uri) == DefaultFileName <==> AfterLast(uri, '/') == "" || AfterLast(uri, '/') == DefaultFileName
    ensures FileName(uri) != DefaultFileName ==>
      && EndsWith(uri, FileName(uri))
      && (|FileName(uri)| == |uri| || uri[|uri| - |FileName(uri)| - 1] == '/')
    ensures (|uri| == 0 || uri[|uri| - 1] == '/') ==> FileName(uri) == DefaultFileName
  {
  }

  /** `handleFileIntent`: the outcome and the state afterwards. The state
      changes only when a route with at least one point was loaded, and then
      exactly as storing that route under its file name. `read` stands for
      reading the file and parsing its text into a document; None is a
      failure to read. */
  function HandleFileIntent(s: AppState, url: string, uriParam: string -> Option<string>,
                            read: string -> Option<Document>): (r: (IntentOutcome, AppState))
    ensures r.0.Skipped? <==> FileUriOf(url, uriParam).None?
    ensures r.0.Loaded? <==>
      && FileUriOf(url, uriParam).Some?
      && read(FileUriOf(url, uriParam).value).Some?
      && ParseGpx(read(FileUriOf(url, uriParam).value).value).Success?
      && |ParseGpx(read(FileUriOf(url, uriParam).value).value).value.points| > 0
    ensures r.0.LoadFailed? <==>
      && FileUriOf(url, uriParam).Some?
      && (read(FileUriOf(url, uriParam).value).None? || ParseGpx(read(FileUriOf(url, uriParam).value).value).Failure?)
    ensures r.0.NoRoute? <==>
      && FileUriOf(url, uriParam).Some?
      && read(FileUriOf(url, uriParam).value).Some?
      && ParseGpx(read(FileUriOf(url, uriParam).value).value).Success?
      && |ParseGpx(read(FileUriOf(url, uriParam).value).value).value.points| == 0
    ensures !r.0.Skipped? ==> r.0.uri == FileUriOf(url, uriParam).value
    ensures !r.0.Loaded? ==> r.1 == s
    ensures r.0.Loaded? ==>
      && r.0.uri == FileUriOf(url, uriParam).value
      && read(r.0.uri).Some?
      && ParseGpx(read(r.0.uri).value).Success?
      && |ParseGpx(read(r.0.uri).value).value.points| > 0
      && r.0.fileName == FileName(r.0.uri)
      && r.1 == SetOriginalRoute(s, ParseGpx(read(r.0.uri).value).value, r.0.fileName)
  {
    match FileUriOf(url, uriParam)
    case None => (Skipped, s)
    case Some(fileUri) =>
      match read(fileUri)
      case None => (LoadFailed(fileUri), s)
      case Some(doc) =>
        match ParseGpx(doc)
        case Failure(_) => (LoadFailed(fileUri), s)
        case Success(route) =>
          if |route.points| == 0 then (NoRoute(fileUri), s)
          else
            var fileName := FileName(fileUri);
            (Loaded(fileUri, fileName), SetOriginalRoute(s, route, fileName))
  }

  /** A document with neither tracks nor routes is rejected, and the state
      is kept. */
  lemma EmptyDocumentRejected(s: AppState, url: string, uriParam: string -> Option<string>, read: string -> Option<Document>)
    requires FileUriOf(url, uriParam).Some?
    requires var doc := read(FileUriOf(url, uriParam).value);
      doc.Some? && (doc.value.gpx.None? || (|doc.value.gpx.value.trks| == 0 && |doc.value.gpx.value.rtes| == 0))
    ensures HandleFileIntent(s, url, uriParam, read) == (NoRoute(FileUriOf(url, uriParam).value), s)
  {
  }

  /** A plain file URI is loaded under the name after its last '/'. */
  lemma FileUriExample(s: AppState, read: string -> Option<Document>, uriParam: string -> Option<string>, route: GpxRoute)
    requires read("file:///tmp/ride.gpx").Some?
    requires ParseGpx(read("file:///tmp/ride.gpx").value) == Success(route) && |route.points| > 0
    ensures HandleFileIntent(s, "file:///tmp/ride.gpx", uriParam, read)
         == (Loaded("file:///tmp/ride.gpx", "ride.gpx"), SetOriginalRoute(s, route, "ride.gpx"))
  {
    ExampleUriKept(uriParam);
    ExampleFileName();
  }

  lemma ExampleUriKept(uriParam: string -> Option<string>)
    ensures FileUriOf("file:///tmp/ride.gpx", uriParam) == Some("file:///tmp/ride.gpx")
  {
    var uri := "file:///tmp/ride.gpx";
    assert uri[..7] == "file://";
    assert IsFileUri(uri);
    assert uri[0] == 'f';
    assert !StartsWith(uri, "exp://") by { assert "exp://"[0] == 'e'; }
    assert !StartsWith(uri, "http://") by { assert "http://"[0] == 'h'; }
    assert !StartsWith(uri, "https://") by { assert "https://"[0] == 'h'; }
    assert !StartsWith(uri, AppScheme) by { assert AppScheme[0] == 'r'; }
  }

  lemma ExampleFileName()
    ensures FileName("file:///tmp/ride.gpx") == "ride.gpx"
  {
    var uri := "file:///tmp/ride.gpx";
    assert uri[|uri| - 8..] == "ride.gpx";
    assert uri[|uri| - 9] == '/';
    AfterLastUnique(uri, '/', "ride.gpx");
  }
}
