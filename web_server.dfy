/**
 * The HTTP file server of pico-shell-based-os, from the bytes of a request
 * to the response it sends: the first 511 bytes are read as a C string,
 * sscanf takes method, path and version, anything but GET is refused, the
 * path is mapped under /web (with "/" meaning /web/index.html), and the
 * file is sent with a content type chosen by its extension. The file
 * system is a map from path to content; the TCP connection handling is
 * not modelled.
 */
module WebServer {
  import opened CText

  /** Size of the request buffer; one byte is kept for the NUL. */
  const REQUEST_SIZE: int := 512
  /** The widths of "%15s %127s %15s". */
  const FIELD_WIDTHS: seq<nat> := [15, 127, 15]
  /** Size of the filepath buffer. */
  const FILEPATH_SIZE: int := 144
  /** The largest file send_file_response sends. */
  const MAX_FILE_SIZE: int := 65536
  const INDEX_PATH: string := "/web/index.html"
  /** Sizes of the log message buffers of http_recv_callback and send_file_response. */
  const REQUEST_LOG_SIZE: int := 256
  const SERVED_LOG_SIZE: int := 128

  // ----- get_mime_type -----

  /** strrchr(s, '.'): the index of the last dot. */
  function LastDot(s: string): (k: Option<nat>)
    ensures k.Some? ==> k.value < |s| && s[k.value] == '.' && '.' !in s[k.value + 1..]
    ensures k.None? <==> '.' !in s
  {
    if s == [] then None
    else if s[|s| - 1] == '.' then Some(|s| - 1)
    else
      var k := LastDot(s[..|s| - 1]);
      assert s == s[..|s| - 1] + [s[|s| - 1]];
      if k.Some? then
        assert s[k.value + 1..] == s[..|s| - 1][k.value + 1..] + [s[|s| - 1]];
        k
      else k
  }

  /** The content type of each extension get_mime_type knows. */
  function TypeOfExtension(ext: string): (m: string)
    ensures m != "application/octet-stream" <==>
      ext in [".html", ".htm", ".css", ".js", ".json", ".png", ".jpg", ".jpeg", ".gif", ".svg", ".ico", ".txt"]
    ensures m == "text/html" <==> ext == ".html" || ext == ".htm"
    ensures m == "image/jpeg" <==> ext == ".jpg" || ext == ".jpeg"
  {
    if ext == ".html" || ext == ".htm" then "text/html"
    else if ext == ".css" then "text/css"
    else if ext == ".js" then "application/javascript"
    else if ext == ".json" then "application/json"
    else if ext == ".png" then "image/png"
    else if ext == ".jpg" || ext == ".jpeg" then "image/jpeg"
    else if ext == ".gif" then "image/gif"
    else if ext == ".svg" then "image/svg+xml"
    else if ext == ".ico" then "image/x-icon"
    else if ext == ".txt" then "text/plain"
    else "application/octet-stream"
  }

  /** get_mime_type: text/plain without a dot, otherwise the type of the extension from the last dot. */
  function MimeType(filename: string): (m: string)
    ensures '.' !in CString(filename) ==> m == "text/plain"
    ensures LastDot(CString(filename)).Some? ==>
      m == TypeOfExtension(CString(filename)[LastDot(CString(filename)).value..])
  {
    var name := CString(filename);
    match LastDot(name)
    case None => "text/plain"
    case Some(k) => TypeOfExtension(name[k..])
  }

  /**
   * Only the text from the last dot matters: "a.b.html" is HTML,
   * "page.html.bak" is not.
   */
  lemma MimeByLastDot(base: string, ext: string)
    requires '\0' !in base && '\0' !in ext && ext != [] && ext[0] == '.' && '.' !in ext[1..]
    ensures MimeType(base + ext) == TypeOfExtension(ext)
  {
    var s := base + ext;
    CStringOfPlain(s);
    assert s[|base|] == '.';
    assert s[|base| + 1..] == ext[1..];
    LastDotAt(s, |base|);
    assert s[|base|..] == ext;
  }

  /** HTML pages are served as text/html under both extensions. */
  lemma HtmlPages(base: string)
    requires '\0' !in base
    ensures MimeType(base + ".html") == "text/html" && MimeType(base + ".htm") == "text/html"
  {
    MimeByLastDot(base, ".html");
    MimeByLastDot(base, ".htm");
  }

  /** An extension outside the table is sent as application/octet-stream. */
  lemma UnknownExtension(base: string, ext: string)
    requires '\0' !in base && '\0' !in ext && ext != [] && ext[0] == '.' && '.' !in ext[1..]
    requires ext !in [".html", ".htm", ".css", ".js", ".json", ".png", ".jpg", ".jpeg", ".gif", ".svg", ".ico", ".txt"]
    ensures MimeType(base + ext) == "application/octet-stream"
  {
    MimeByLastDot(base, ext);
  }

  // ----- http_recv_callback and send_file_response -----

  /** The request text: at most 511 bytes of the packet, up to the first NUL. */
  function RequestText(packet: seq<char>): (r: string)
    ensures |r| < REQUEST_SIZE && '\0' !in r
  {
    CString(Take(packet, REQUEST_SIZE - 1))
  }

  /** The file a request path names: "/" is the index page, any other path is put under /web. */
  function FilePath(path: string): (f: string)
    ensures |f| < FILEPATH_SIZE
    ensures path == "/" ==> f == INDEX_PATH
    ensures path != "/" && |path| <= 127 ==> f == "/web" + path
  {
    if path == "/" then INDEX_PATH else Take("/web" + path, FILEPATH_SIZE - 1)
  }

  /** What the server sends back: status code, reason, content type and body. */
  datatype Response = Response(status: int, reason: string, contentType: string, body: seq<char>)

  /** send_http_error: an HTML page naming the code. */
  function ErrorPage(status: nat, reason: string): (r: Response)
    ensures r.status == status && r.reason == reason && r.contentType == "text/html"
    ensures r.body == PAGE_HEAD + Decimal(status) + " " + reason + PAGE_TAIL
  {
    Response(status, reason, "text/html", PAGE_HEAD + Decimal(status) + " " + reason + PAGE_TAIL)
  }

  const PAGE_HEAD := "<html><body><h1>"
  const PAGE_TAIL := "</h1></body></html>\r\n"

  /** The code in the page's heading is the status code: atoi reads it back from after the opening tags. */
  lemma ErrorPageNamesCode(status: nat, reason: string)
    ensures Atoi(ErrorPage(status, reason).body[|PAGE_HEAD|..]) == status
  {
    var text := ErrorPage(status, reason).body[|PAGE_HEAD|..];
    var rest := " " + reason + PAGE_TAIL;
    assert text == Decimal(status) + rest;
    assert SkipSpaces(text) == text by {
      assert IsDigit(text[0]);
    }
    LeadingDigitsBefore(Decimal(status), rest);
    DecimalValueOfDecimal(status);
  }

  /**
   * send_file_response: 404 when the file does not exist, 500 when it is
   * larger than 64 KiB, otherwise 200 with the type of the path and the
   * content. The "File not found" line is logged before the error page is
   * sent; the "Served" line after the file.
   */
  function FileResponse(filepath: string, files: map<string, seq<char>>): (r: (Response, seq<string>))
    ensures filepath !in files ==> r.0.status == 404 && r.1 == ["HTTP: File not found"]
    ensures filepath in files && |files[filepath]| > MAX_FILE_SIZE ==> r.0.status == 500 && r.1 == []
    ensures filepath in files && |files[filepath]| <= MAX_FILE_SIZE ==>
      r.0 == Response(200, "OK", MimeType(filepath), files[filepath])
      && |r.1| == 1 && |r.1[0]| < SERVED_LOG_SIZE
  {
    if filepath !in files then (ErrorPage(404, "Not Found"), ["HTTP: File not found"])
    else
      var content := files[filepath];
      if |content| > MAX_FILE_SIZE then (ErrorPage(500, "Internal Server Error"), [])
      else
        (Response(200, "OK", MimeType(filepath), content),
         [Take("HTTP: Served " + filepath + " (" + Decimal(|content|) + " bytes)", SERVED_LOG_SIZE - 1)])
  }

  /**
   * http_recv_callback on the bytes of one request: 400 unless sscanf
   * fills all three fields, 405 for a method other than GET, otherwise the
   * file the path maps to; with the log lines written on the way.
   */
  function Handle(packet: seq<char>, files: map<string, seq<char>>): (r: (Response, seq<string>))
    ensures var f := ScanWords(RequestText(packet), FIELD_WIDTHS);
      (r.0.status == 400 <==> |f| != 3)
      && (|f| == 3 ==> |r.1| >= 1 && r.1[0] == Take("HTTP: " + f[0] + " " + f[1], REQUEST_LOG_SIZE - 1))
      && (|f| == 3 && f[0] != "GET" ==> r.0.status == 405 && |r.1| == 1)
      && (|f| == 3 && f[0] == "GET" ==> r.0 == FileResponse(FilePath(f[1]), files).0)
  {
    var f := ScanWords(RequestText(packet), FIELD_WIDTHS);
    if |f| != 3 then (ErrorPage(400, "Bad Request"), [])
    else
      var logged := [Take("HTTP: " + f[0] + " " + f[1], REQUEST_LOG_SIZE - 1)];
      if f[0] != "GET" then (ErrorPage(405, "Method Not Allowed"), logged)
      else
        var served := FileResponse(FilePath(f[1]), files);
        (served.0, logged + served.1)
  }

  /** A path of at most 127 characters is never cut: the server looks up exactly /web + path. */
  lemma PathNotCut(packet: seq<char>)
    requires |ScanWords(RequestText(packet), FIELD_WIDTHS)| == 3
    ensures var path := ScanWords(RequestText(packet), FIELD_WIDTHS)[1];
      path != "/" ==> FilePath(path) == "/web" + path
  {
  }

  /**
   * Round trip: "GET <path> <version>" is answered with the file /web<path>
   * (or the index page for "/"), typed by its extension.
   */
  lemma GetServesFile(path: string, version: string, files: map<string, seq<char>>)
    requires IsWord(path) && |path| <= 127 && '\0' !in path
    requires IsWord(version) && |version| <= 15 && '\0' !in version
    requires FilePath(path) in files && |files[FilePath(path)]| <= MAX_FILE_SIZE
    ensures Handle(JoinSpaces(["GET", path, version]), files).0
      == Response(200, "OK", MimeType(FilePath(path)), files[FilePath(path)])
  {
    var words := ["GET", path, version];
    var request := JoinSpaces(words);
    JoinThree("GET", path, version);
    assert '\0' !in request;
    CStringOfPlain(request);
    assert RequestText(request) == request;
    ScanJoinedWords(words, FIELD_WIDTHS);
  }

  /** Any other method is refused with 405 and nothing is looked up. */
  lemma OtherMethodRefused(verb: string, path: string, version: string, files: map<string, seq<char>>)
    requires IsWord(verb) && |verb| <= 15 && verb != "GET" && '\0' !in verb
    requires IsWord(path) && |path| <= 127 && '\0' !in path
    requires IsWord(version) && |version| <= 15 && '\0' !in version
    ensures Handle(JoinSpaces([verb, path, version]), files).0.status == 405
  {
    var words := [verb, path, version];
    var request := JoinSpaces(words);
    JoinThree(verb, path, version);
    CStringOfPlain(request);
    ScanJoinedWords(words, FIELD_WIDTHS);
  }

  /** A dot with no dot after it is the one strrchr finds. */
  lemma {:induction false} LastDotAt(s: string, k: nat)
    requires k < |s| && s[k] == '.' && '.' !in s[k + 1..]
    ensures LastDot(s) == Some(k)
  {
    if k < |s| - 1 {
      assert s[|s| - 1] in s[k + 1..];
      var t := s[..|s| - 1];
      assert t[k + 1..] <= s[k + 1..];
      LastDotAt(t, k);
    }
  }
}
