/**
 * The request routers of the two Deno servers, `src/server.tsx` and
 * `client/src/server.tsx`: a chain of tests on the request's path name,
 * taken in order, picks the response; and the static-file response of
 * `src/server.tsx`, whose content type comes from `Mime.GetMimeType`. The
 * file system is a parameter.
 */
module Routes {
  import opened Wrappers
  import opened Text
  import Mime

  /** The response a path name is routed to. */
  datatype Route =
    | Stylesheet                // the compiled `./src/output.css`
    | StaticFile(path: string)  // the file at this path, relative to the working directory
    | SheetData                 // the spreadsheet data relayed from the Go server
    | Page                      // the rendered home page

  /** The `router` of `src/server.tsx`. */
  function LegacyRoute(pathname: string): (r: Route)
    ensures r == Stylesheet <==> pathname == "/output.css"
    ensures r.StaticFile? <==> pathname != "/output.css" && HasPrefix(pathname, "/public/")
    ensures r.StaticFile? ==> r.path == "." + pathname
    ensures r == Page <==> pathname != "/output.css" && !HasPrefix(pathname, "/public/")
    ensures r != SheetData
  {
    if pathname == "/output.css" then Stylesheet
    else if HasPrefix(pathname, "/public/") then StaticFile("." + pathname)
    else Page
  }

  /** The `router` of `client/src/server.tsx`: static files live under
      `/src/public/`, and `/data.json` relays the spreadsheet data. */
  function ClientRoute(pathname: string): (r: Route)
    ensures r == Stylesheet <==> pathname == "/output.css"
    ensures r.StaticFile? <==> pathname != "/output.css" && HasPrefix(pathname, "/src/public/")
    ensures r.StaticFile? ==> r.path == "." + pathname
    ensures r == SheetData <==> pathname == "/data.json"
    ensures r == Page <==>
      pathname != "/output.css" && !HasPrefix(pathname, "/src/public/") && pathname != "/data.json"
  {
    if pathname == "/output.css" then Stylesheet
    else if HasPrefix(pathname, "/src/public/") then StaticFile("." + pathname)
    else if pathname == "/data.json" then SheetData
    else Page
  }

  /** A path under `/public/` is a static file for the older server and the
      home page for the client server; the two servers agree on every path
      outside both static prefixes except `/data.json`. */
  lemma RoutersDiffer(pathname: string)
    ensures HasPrefix(pathname, "/public/") ==>
      LegacyRoute(pathname) == StaticFile("." + pathname) && ClientRoute(pathname) == Page
    ensures !HasPrefix(pathname, "/public/") && !HasPrefix(pathname, "/src/public/") && pathname != "/data.json" ==>
      LegacyRoute(pathname) == ClientRoute(pathname)
  {
    if HasPrefix(pathname, "/public/") {
      assert pathname[1] == 'p';
      assert "/output.css"[1] == 'o' && "/data.json"[1] == 'd' && "/src/public/"[1] == 's';
    }
  }

  /** What `serveStaticFile` answers. */
  datatype Reply = File(contentType: string, content: seq<bv8>) | NotFound

  /** `serveStaticFile`: the file's bytes with the type its extension names,
      or "Not Found" when it cannot be read. */
  function ServeStaticFile(readFile: string -> Option<seq<bv8>>, path: string): (reply: Reply)
    ensures reply.NotFound? <==> readFile(path).None?
    ensures reply.File? ==> reply.content == readFile(path).value && reply.contentType == Mime.GetMimeType(path)
  {
    match readFile(path)
    case None => NotFound
    case Some(bytes) => File(Mime.GetMimeType(path), bytes)
  }

  /** A readable `.PNG` file directly under `/public/` reaches the browser
      as a PNG image from the older server. */
  lemma PublicPng(readFile: string -> Option<seq<bv8>>, name: string)
    requires '/' !in name && |name| > 0 && name[0] != '.'
    requires readFile("./public/" + name + ".PNG").Some?
    ensures var r := LegacyRoute("/public/" + name + ".PNG");
      r == StaticFile("./public/" + name + ".PNG")
      && ServeStaticFile(readFile, r.path) == File("image/png", readFile("./public/" + name + ".PNG").value)
  {
    var pathname := "/public/" + name + ".PNG";
    assert HasPrefix(pathname, "/public/") by {
      assert pathname[..8] == "/public/";
    }
    assert pathname != "/output.css" by {
      assert pathname[1] == 'p' && "/output.css"[1] == 'o';
    }
    var path := "./public/" + name + ".PNG";
    assert "." + pathname == path;
    assert path == "./public" + "/" + name + ".PNG";
    Mime.UpperCasePng("./public", name);
  }
}
