/**
  The static-file server of the JavaScript layer
  (modules/http-serve-directory.js): a request URL is mapped to a file
  under the served directory; the file is answered with status 200 and the
  content type of its extension, a missing file with status 404 and a
  small page naming the URL.

  Reading the file is a parameter (`readFile`, None for an error); the
  HTTP server itself is the one modelled in HttpServer.
 */
module ServeDirectory {
  import opened Wrappers
  import opened Text
  import opened JsObjects

  /** `s.lastIndexOf(c)`: the last index holding `c`, or -1. */
  function LastIndexOf(s: string, c: char): (k: int)
    ensures k == -1 || (0 <= k < |s| && s[k] == c)
    ensures k == -1 ==> c !in s
    ensures forall i :: k < i < |s| ==> s[i] != c
  {
    if s == [] then -1
    else if s[|s| - 1] == c then |s| - 1
    else LastIndexOf(s[..|s| - 1], c)
  }

  /** `extname(filePath)`: the text after the last '.', or "" when there is none. */
  function Extname(filePath: string): (ext: string)
    ensures '.' !in ext
    ensures '.' in filePath ==> exists stem :: filePath == stem + "." + ext
  {
    var dot := LastIndexOf(filePath, '.');
    if dot != -1 then
      assert filePath == filePath[..dot] + "." + filePath[dot + 1..];
      filePath[dot + 1..]
    else ""
  }

  /** A name ending in "." and a text without a dot has that text as its extension. */
  lemma ExtnameOfSuffix(stem: string, ext: string)
    requires '.' !in ext
    ensures Extname(stem + "." + ext) == ext
  {
    var s := stem + "." + ext;
    var dot := LastIndexOf(s, '.');
    assert s[|stem|] == '.';
    assert dot == |stem| by {
      forall i | |stem| < i < |s|
        ensures s[i] != '.'
      {
        assert s[i] == ext[i - |stem| - 1];
      }
    }
    assert s[dot + 1..] == ext;
  }

  /** `extToContentType`. */
  const ContentTypes: JsObject<string> := [
    ("js", "text/javascript"),
    ("css", "text/css"),
    ("json", "application/json"),
    ("png", "image/png"),
    ("jpg", "image/jpg"),
    ("wav", "audio/wav")
  ]

  const DefaultContentType: string := "text/html"

  /**
    The names a plain object inherits from `Object.prototype` (section
    15.2.4 of ECMA-262, 5.1 edition). Each is a function, and so truthy.
   */
  const Inherited: seq<string> :=
    ["constructor", "toString", "toLocaleString", "valueOf", "hasOwnProperty", "isPrototypeOf", "propertyIsEnumerable"]

  /** A value `extToContentType[ext]` can give: one of the table's strings, or an inherited function. */
  datatype ContentType = TypeName(name: string) | InheritedMethod(key: string)

  /** `extToContentType[ext]`: an own entry first, then the prototype chain, else undefined. */
  function LookupType(ext: string): (v: Option<ContentType>)
    ensures v.Some? && v.value.InheritedMethod? ==> Get(ContentTypes, ext).None? && v.value.key == ext && ext in Inherited
    ensures v.None? <==> Get(ContentTypes, ext).None? && ext !in Inherited
  {
    var own := Get(ContentTypes, ext);
    if own.Some? then Some(TypeName(own.value))
    else if ext in Inherited then Some(InheritedMethod(ext))
    else None
  }

  /** Whether a looked-up value passes `if (contentType)`: a non-empty string or a function. */
  predicate Truthy(v: Option<ContentType>)
  {
    v.Some? && (v.value.TypeName? ==> v.value.name != "")
  }

  /**
    `pathToContentType(filePath)`: the table's type for the extension, an
    inherited function for an extension that names one, 'text/html' otherwise.
   */
  function PathToContentType(filePath: string): (ct: ContentType)
    ensures ct == TypeName(DefaultContentType)
         || (exists i :: 0 <= i < |ContentTypes| && ct == TypeName(ContentTypes[i].1))
         || (ct.InheritedMethod? && ct.key in Inherited)
  {
    var v := LookupType(Extname(filePath));
    if Truthy(v) then
      if v.value.TypeName? then
        assert exists i :: 0 <= i < |ContentTypes| && v.value.name == ContentTypes[i].1 by {
          GetFound(ContentTypes, Extname(filePath));
        }
        v.value
      else v.value
    else TypeName(DefaultContentType)
  }

  /** The value `Get` returns is the value of an entry with that key. */
  lemma {:induction false} GetFound<V>(o: JsObject<V>, k: string)
    requires Get(o, k).Some?
    ensures exists i :: 0 <= i < |o| && o[i] == (k, Get(o, k).value)
  {
    if o[0].0 != k {
      GetFound(o[1..], k);
      var i :| 0 <= i < |o[1..]| && o[1..][i] == (k, Get(o, k).value);
      assert o[i + 1] == o[1..][i];
    }
  }

  /**
    A file named with one of the table's extensions gets that extension's
    type; one named with an inherited name gets that inherited function; any
    other gets 'text/html'.
   */
  lemma ContentTypeOf(stem: string, ext: string)
    requires '.' !in ext
    ensures var ct := Get(ContentTypes, ext);
      PathToContentType(stem + "." + ext)
        == if ct.Some? then TypeName(ct.value)
           else if ext in Inherited then InheritedMethod(ext)
           else TypeName(DefaultContentType)
  {
    ExtnameOfSuffix(stem, ext);
    var ct := Get(ContentTypes, ext);
    if ct.Some? {
      GetFound(ContentTypes, ext);
    }
  }

  /** A request for "/a.toString" is answered with the inherited function as its content type, not 'text/html'. */
  lemma InheritedExtension()
    ensures PathToContentType("/a.toString") == InheritedMethod("toString")
  {
    var ext := "toString";
    assert forall i :: 0 <= i < |ContentTypes| ==> ContentTypes[i].0 != ext by {
      forall i | 0 <= i < |ContentTypes| ensures ContentTypes[i].0 != ext {
        assert ContentTypes[i].0[0] != ext[0];
      }
    }
    assert Inherited[1] == ext;
    assert "/a" + "." + ext == "/a.toString";
    ContentTypeOf("/a", ext);
  }

  /** `page404(url)`. */
  function Page404(url: string): (page: string)
    ensures var pre := "<html>\n  <body>    <h2>Requested file not found: ";
      |page| >= |pre| + |url| && page[|pre|..|pre| + |url|] == url
  {
    var pre := "<html>\n" + "  <body>" + "    <h2>Requested file not found: ";
    var page := pre + url + "</h2>" + "  </body>" + "</html>";
    assert page[|pre|..|pre| + |url|] == url;
    page
  }

  /** The file a request URL names: "/" is "/index.html", a missing leading '/' is added, and the directory goes in front. */
  function MappedPath(dir: string, url: string): string
  {
    if url == "/" then dir + "/index.html"
    else if url == [] || url[0] != '/' then dir + "/" + url
    else dir + url
  }

  /** Every mapped path is the directory followed by a path starting with '/'. */
  lemma MappedPathInDir(dir: string, url: string)
    ensures var p := MappedPath(dir, url); |p| > |dir| && p[..|dir|] == dir && p[|dir|] == '/'
  {
  }

  /** The handler's steps on `filePath`. */
  method FilePath(dir: string, url: string) returns (filePath: string)
    ensures filePath == MappedPath(dir, url)
  {
    filePath := url;
    if filePath == "/" {
      filePath := "/index.html";
    }
    if filePath == [] || filePath[0] != '/' {
      filePath := "/" + filePath;
    }
    filePath := dir + filePath;
  }

  /** A URL without its leading '/' names the same file as with it, and "/" the same as "/index.html". */
  lemma SameFiles(dir: string, url: string)
    requires url != [] && url[0] != '/'
    ensures MappedPath(dir, url) == MappedPath(dir, "/" + url)
    ensures MappedPath(dir, "/") == MappedPath(dir, "/index.html")
  {
    assert dir + "/" + url == dir + ("/" + url);
  }

  /** Different URLs that start with '/', other than "/", name different files. */
  lemma FilePathsDiffer(dir: string, url1: string, url2: string)
    requires url1 != url2
    requires url1 != "/" && url1 != [] && url1[0] == '/'
    requires url2 != "/" && url2 != [] && url2[0] == '/'
    ensures MappedPath(dir, url1) != MappedPath(dir, url2)
  {
    assert (dir + url1)[|dir|..] == url1 && (dir + url2)[|dir|..] == url2;
  }

  /** What the server answers. */
  datatype Response = Response(status: nat, contentType: ContentType, body: string)

  /** The request handler: the file with its content type, or 404 with the page naming the URL. */
  method Serve(dir: string, url: string, readFile: string -> Option<string>) returns (r: Response)
    ensures var filePath := MappedPath(dir, url);
      && (readFile(filePath).Some? ==> r == Response(200, PathToContentType(filePath), readFile(filePath).value))
      && (readFile(filePath).None? ==> r == Response(404, TypeName(DefaultContentType), Page404(url)))
  {
    var filePath := FilePath(dir, url);
    var content := readFile(filePath);
    if content.Some? {
      r := Response(200, PathToContentType(filePath), content.value);
    } else {
      r := Response(404, TypeName("text/html"), Page404(url));
    }
  }
}
