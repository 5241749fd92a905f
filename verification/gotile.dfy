/**
 The Gitiles client of gotile.go: request URLs for trees and blobs, the framed JSON
 response handling of `getJSON`, and the two service operations `Tree` and
 `BlobContentString`.

 The HTTP transport (`http.Get` followed by `ioutil.ReadAll`) is a parameter of type
 `Fetcher`, and the JSON decoder (`encoding/json` into a fresh `TreeResponse`) is a
 parameter of type `JsonDecoder`. Both are otherwise unconstrained.
 */
module Gotile {
  import opened Wrappers
  import opened Text
  import Base64

  /** The service: the base address of the Gitiles server. */
  datatype Service = Service(addr: string)

  /** One directory entry; `kind` is the entry's `Type` field as sent by the server. */
  datatype TreeEntry = TreeEntry(mode: int, kind: string, id: string, name: string)

  /** A directory listing, entries in server order. */
  datatype TreeResponse = TreeResponse(id: string, entries: seq<TreeEntry>)

  /** The zero value of `TreeResponse`, the state of a destination nothing was decoded into. */
  const EmptyTree := TreeResponse("", [])

  /** A location: repository, branch and path within the tree. */
  datatype TreeAddr = TreeAddr(repo: string, branch: string, path: string)

  /**
   The Go `error` values the client produces or passes on: the missing-header error
   raised here, carrying the whole payload it quotes, and errors raised by the
   transport or the JSON decoder, which are opaque to this code.
   */
  datatype Error =
    | MissingHeader(payload: seq<byte>)
    | External(message: string)

  /** A `*TreeResponse` together with the `error` returned beside it. */
  datatype TreeOutcome = TreeOutcome(tree: TreeResponse, err: Option<Error>)

  /** A `string` together with the `error` returned beside it. */
  datatype TextOutcome = TextOutcome(text: string, err: Option<Error>)

  /** GET of a URL followed by reading the whole body. */
  type Fetcher = string -> Result<seq<byte>, Error>

  /**
   JSON decoding of a byte slice into a fresh `TreeResponse`: what the destination
   holds afterwards (possibly partly filled when decoding fails) and the error.
   */
  type JsonDecoder = seq<byte> -> TreeOutcome

  // ---------------------------------------------------------------------------
  // Request URLs
  // ---------------------------------------------------------------------------

  /** The URL `{base}/{repo}/{view}/{branch}/{path}?format={format}`. */
  function Locator(s: Service, a: TreeAddr, view: string, path: string, format: string): string
  {
    s.addr + "/" + a.repo + "/" + view + "/" + a.branch + "/" + path + "?format=" + format
  }

  /** The directory a tree request names: `.` for an empty path, the path itself otherwise. */
  function TreeDir(path: string): (d: string)
    ensures |d| > 0
    ensures path == "" ==> d == "."
    ensures path != "" ==> d == path
  {
    if path == "" then "." else path
  }

  /**
   The URL of a tree listing: the `+` view of the branch, then the directory (never
   empty), then the JSON format selector.
   */
  function TreeUrl(s: Service, a: TreeAddr): (u: string)
    ensures var pre := s.addr + "/" + a.repo + "/+/" + a.branch + "/";
            && |u| == |pre| + |TreeDir(a.path)| + |"?format=JSON"|
            && u[..|pre|] == pre
            && u[|pre|..|u| - |"?format=JSON"|] == TreeDir(a.path) != ""
            && u[|u| - |"?format=JSON"|..] == "?format=JSON"
  {
    Locator(s, a, "+", TreeDir(a.path), "JSON")
  }

  /**
   The URL of a blob's base64 text: the `+show` view of the branch, then the path as
   given, then the text format selector.
   */
  function BlobUrl(s: Service, a: TreeAddr): (u: string)
    ensures var pre := s.addr + "/" + a.repo + "/+show/" + a.branch + "/";
            && |u| == |pre| + |a.path| + |"?format=TEXT"|
            && u[..|pre|] == pre
            && u[|pre|..|u| - |"?format=TEXT"|] == a.path
            && u[|u| - |"?format=TEXT"|..] == "?format=TEXT"
  {
    Locator(s, a, "+show", a.path, "TEXT")
  }

  /** Equal prefixes and suffixes cancel. */
  lemma CancelAround(p: string, x: string, y: string, q: string)
    ensures p + x + q == p + y + q <==> x == y
  {
    if p + x + q == p + y + q {
      assert |x| == |y|;
      assert x == (p + x + q)[|p|..|p| + |x|];
      assert y == (p + y + q)[|p|..|p| + |y|];
    }
  }

  /** Two locators differing only in their path are equal exactly when the paths are. */
  lemma LocatorPath(s: Service, a: TreeAddr, b: TreeAddr, view: string, p1: string, p2: string, format: string)
    requires a.repo == b.repo && a.branch == b.branch
    ensures Locator(s, a, view, p1, format) == Locator(s, b, view, p2, format) <==> p1 == p2
  {
    var pre := s.addr + "/" + a.repo + "/" + view + "/" + a.branch + "/";
    var post := "?format=" + format;
    assert Locator(s, a, view, p1, format) == pre + p1 + post;
    assert Locator(s, b, view, p2, format) == pre + p2 + post;
    CancelAround(pre, p1, p2, post);
  }

  /**
   Within one repository and branch, two tree requests name the same URL exactly when
   their paths are equal or are `""` and `"."`: the empty path means the root.
   */
  lemma TreeUrlPaths(s: Service, a: TreeAddr, b: TreeAddr)
    requires a.repo == b.repo && a.branch == b.branch
    ensures TreeUrl(s, a) == TreeUrl(s, b) <==> a.path == b.path || {a.path, b.path} == {"", "."}
  {
    LocatorPath(s, a, b, "+", TreeDir(a.path), TreeDir(b.path), "JSON");
    if {a.path, b.path} == {"", "."} {
      assert TreeDir(a.path) == "." == TreeDir(b.path) by {
        assert a.path in {"", "."} && b.path in {"", "."};
      }
    }
    if TreeDir(a.path) == TreeDir(b.path) && a.path != b.path {
      assert a.path == "" || b.path == "";
      assert {a.path, b.path} == {"", "."};
    }
  }

  /**
   Within one repository and branch, two blob requests name the same URL exactly when
   their paths are equal: no `.` is substituted for an empty path.
   */
  lemma BlobUrlPaths(s: Service, a: TreeAddr, b: TreeAddr)
    requires a.repo == b.repo && a.branch == b.branch
    ensures BlobUrl(s, a) == BlobUrl(s, b) <==> a.path == b.path
  {
    LocatorPath(s, a, b, "+show", a.path, b.path, "TEXT");
  }

  /** A tree request for the root names the directory `.`. */
  lemma TreeUrlRoot()
    ensures TreeUrl(Service("http://localhost:8080"), TreeAddr("x", "main", ""))
         == "http://localhost:8080/x/+/main/.?format=JSON"
  {
  }

  // ---------------------------------------------------------------------------
  // Framed JSON responses
  // ---------------------------------------------------------------------------

  /** Go's `bytes.IndexByte`: the index of the first `b` in `c`, or -1. */
  function IndexByte(c: seq<byte>, b: byte): (i: int)
    ensures -1 <= i < |c|
    ensures i == -1 <==> b !in c
    ensures i >= 0 ==> c[i] == b && b !in c[..i]
  {
    if |c| == 0 then -1
    else if c[0] == b then 0
    else
      var j := IndexByte(c[1..], b);
      if j < 0 then -1
      else
        assert c[..j + 1] == [c[0]] + c[1..][..j];
        j + 1
  }

  /** The first `b` after a stretch without `b` is found at the end of that stretch. */
  lemma {:induction false} IndexByteFirst(h: seq<byte>, b: byte, rest: seq<byte>)
    requires b !in h
    ensures IndexByte(h + [b] + rest, b) == |h|
  {
    if |h| > 0 {
      IndexByteFirst(h[1..], b, rest);
      assert (h + [b] + rest)[1..] == h[1..] + [b] + rest;
    }
  }

  /**
   Removes the anti-hijacking first line of a response body. Without a newline the
   body is rejected with a missing-header error carrying the body; otherwise the
   result is everything after the first newline, later newlines included.
   */
  function StripHeader(c: seq<byte>): (r: Result<seq<byte>, Error>)
    ensures NewlineByte !in c ==> r == Failure(MissingHeader(c))
    ensures NewlineByte in c ==>
      && r.Success?
      && |r.value| < |c|
      && r.value == c[|c| - |r.value|..]
      && c[|c| - |r.value| - 1] == NewlineByte
      && NewlineByte !in c[..|c| - |r.value| - 1]
  {
    var i := IndexByte(c, NewlineByte);
    if i < 0 then Failure(MissingHeader(c)) else Success(c[i + 1..])
  }

  /** `unmarshalGitiles`: the decoder's outcome, its error passed on unchanged. */
  function UnmarshalGitiles(c: seq<byte>, decode: JsonDecoder): (r: TreeOutcome)
    ensures r.err == decode(c).err
    ensures r.tree == decode(c).tree
  {
    match decode(c)
    case TreeOutcome(t, None) => TreeOutcome(t, None)
    case TreeOutcome(t, Some(e)) => TreeOutcome(t, Some(e))
  }

  /**
   The part of `getJSON` after the body is read: strip the first line, then decode
   the rest into a fresh `TreeResponse`.
   */
  function DecodeFramed(c: seq<byte>, decode: JsonDecoder): (r: TreeOutcome)
    ensures NewlineByte !in c ==> r == TreeOutcome(EmptyTree, Some(MissingHeader(c)))
  {
    match StripHeader(c)
    case Failure(e) => TreeOutcome(EmptyTree, Some(e))
    case Success(rest) => UnmarshalGitiles(rest, decode)
  }

  /**
   A framed body decodes exactly as the bytes after its first newline: the first
   line's content never matters, and every later newline reaches the decoder.
   */
  lemma DecodeFramedSkipsFirstLine(h: seq<byte>, rest: seq<byte>, decode: JsonDecoder)
    requires NewlineByte !in h
    ensures DecodeFramed(h + [NewlineByte] + rest, decode) == decode(rest)
  {
    var c := h + [NewlineByte] + rest;
    IndexByteFirst(h, NewlineByte, rest);
    var r := StripHeader(c);
    assert r.value == rest;
  }

  /** Without a newline, the outcome does not depend on the decoder: it is never run. */
  lemma MissingHeaderSkipsDecoder(c: seq<byte>, d1: JsonDecoder, d2: JsonDecoder)
    requires NewlineByte !in c
    ensures DecodeFramed(c, d1) == DecodeFramed(c, d2)
    ensures DecodeFramed(c, d1).err == Some(MissingHeader(c))
  {
  }

  /**
   `getJSON` into a fresh `TreeResponse`: transport errors come back unchanged with
   the destination untouched; otherwise the body is decoded as a framed response.
   */
  function GetJson(url: string, fetch: Fetcher, decode: JsonDecoder): (r: TreeOutcome)
    ensures fetch(url).Failure? ==> r == TreeOutcome(EmptyTree, Some(fetch(url).error))
    ensures fetch(url).Success? ==> r == DecodeFramed(fetch(url).value, decode)
  {
    match fetch(url)
    case Failure(e) => TreeOutcome(EmptyTree, Some(e))
    case Success(body) => DecodeFramed(body, decode)
  }

  // ---------------------------------------------------------------------------
  // Service operations
  // ---------------------------------------------------------------------------

  /**
   `Service.Tree`: fetches the listing at `addr`. A transport error or a body without
   a first line comes back with the empty response; otherwise the outcome is the
   decoder's on the bytes after the first line.
   */
  function Tree(s: Service, addr: TreeAddr, fetch: Fetcher, decode: JsonDecoder): (r: TreeOutcome)
    ensures fetch(TreeUrl(s, addr)).Failure? ==>
      r == TreeOutcome(EmptyTree, Some(fetch(TreeUrl(s, addr)).error))
    ensures fetch(TreeUrl(s, addr)).Success? && NewlineByte !in fetch(TreeUrl(s, addr)).value ==>
      r == TreeOutcome(EmptyTree, Some(MissingHeader(fetch(TreeUrl(s, addr)).value)))
    ensures fetch(TreeUrl(s, addr)).Success? && NewlineByte in fetch(TreeUrl(s, addr)).value ==>
      r == decode(StripHeader(fetch(TreeUrl(s, addr)).value).value)
  {
    GetJson(TreeUrl(s, addr), fetch, decode)
  }

  /**
   A server body made of a first line and the rest lists exactly what the decoder
   makes of the rest: the first line's content never reaches the result.
   */
  lemma TreeFramedBody(s: Service, addr: TreeAddr, fetch: Fetcher, decode: JsonDecoder, h: seq<byte>, rest: seq<byte>)
    requires fetch(TreeUrl(s, addr)) == Success(h + [NewlineByte] + rest)
    requires NewlineByte !in h
    ensures Tree(s, addr, fetch, decode) == decode(rest)
  {
    DecodeFramedSkipsFirstLine(h, rest, decode);
  }

  /** Listing the empty path and listing `.` are the same request with the same outcome. */
  lemma TreeEmptyPathIsRoot(s: Service, addr: TreeAddr, fetch: Fetcher, decode: JsonDecoder)
    ensures Tree(s, addr.(path := ""), fetch, decode) == Tree(s, addr.(path := "."), fetch, decode)
  {
    TreeUrlPaths(s, addr.(path := ""), addr.(path := "."));
  }

  /**
   `Service.BlobContentString`: fetches a blob's base64 text and decodes it. Only the
   transport can make it return an error; a decode failure is folded into the text.
   */
  function BlobContentString(s: Service, addr: TreeAddr, fetch: Fetcher): (r: TextOutcome)
    ensures fetch(BlobUrl(s, addr)).Failure? ==> r == TextOutcome("", Some(fetch(BlobUrl(s, addr)).error))
    ensures fetch(BlobUrl(s, addr)).Success? ==>
      r.err == None && r.text == Base64.NativeAtoB(fetch(BlobUrl(s, addr)).value)
  {
    match fetch(BlobUrl(s, addr))
    case Failure(e) => TextOutcome("", Some(e))
    case Success(c) => TextOutcome(Base64.NativeAtoB(c), None)
  }

  /** A server that returns the encoding of some content yields that content, without error. */
  lemma BlobContentRoundTrip(s: Service, addr: TreeAddr, fetch: Fetcher, content: seq<byte>)
    requires fetch(BlobUrl(s, addr)) == Success(Base64.Encode(content))
    ensures BlobContentString(s, addr, fetch) == TextOutcome(BytesToString(content), None)
  {
    Base64.NativeAtoBRoundTrip(content);
  }
}
