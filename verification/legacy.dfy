/**
 The older tree browser of web/gotiles.go. It classifies entries as web/web.go does
 but only files are clickable, it adds no `..` entry, its listing is fetched once at
 the address the UI was created with, and it shows blob bytes split into lines with
 empty lines left empty. It reads blob content through `Service.BlobContent`, a
 method gotile.go does not define, so the file does not build against that client as
 written; the outcome of that call is a parameter here.
 */
module LegacyWeb {
  import opened Wrappers
  import opened Text
  import opened Gotile
  import Web

  /** Only files get a handler, opening their content. */
  function Route(c: string): (h: Web.Handler)
    ensures h == Web.ContentHandler <==> c == "blob" || c == "xblob"
    ensures h != Web.TreeHandler
  {
    if c == "blob" || c == "xblob" then Web.ContentHandler else Web.NoHandler
  }

  /** The older routing is the current one with directory navigation removed. */
  lemma RouteWithoutTrees(c: string)
    ensures Route(c) == (if Web.Route(c) == Web.TreeHandler then Web.NoHandler else Web.Route(c))
  {
  }

  /** One item per server entry, in order, showing its name; no `..` item is added. */
  function Listing(entries: seq<TreeEntry>): (items: seq<Web.Item>)
    ensures |items| == |entries|
    ensures forall i :: 0 <= i < |entries| ==>
      items[i] == Web.Item(entries[i].name, Route(Web.Classify(entries[i])))
  {
    if |entries| == 0 then []
    else [Web.Item(entries[0].name, Route(Web.Classify(entries[0])))] + Listing(entries[1..])
  }

  /**
   At the root, where the current browser adds no `..` item either, the two listings
   show the same names and differ only in that directories are not clickable here.
   */
  lemma ListingMatchesAtRoot(path: string, entries: seq<TreeEntry>)
    requires Web.IsRoot(path)
    ensures var legacyItems := Listing(entries);
            var currentItems := Web.RenderListing(Web.WithParent(path, entries));
            && |legacyItems| == |currentItems|
            && forall i :: 0 <= i < |legacyItems| ==>
                 legacyItems[i].text == currentItems[i].text
                 && legacyItems[i].handler == (if currentItems[i].handler == Web.TreeHandler then Web.NoHandler else currentItems[i].handler)
  {
  }

  /**
   `fetchFileList`: lists the UI's own address. On an error the alert is raised and
   nothing changes; on success the items are appended to the file list, whose old
   content is not cleared, and the address stays as it was.
   */
  function FetchFileList(ui: Web.UI, s: Service, fetch: Fetcher, decode: JsonDecoder): (r: Web.ListOutcome)
    ensures r.ui.addr == ui.addr
    ensures Tree(s, ui.addr, fetch, decode).err.Some? ==>
      r == Web.ListOutcome(ui, Tree(s, ui.addr, fetch, decode).err)
    ensures Tree(s, ui.addr, fetch, decode).err.None? ==>
      && r.alert.None?
      && |r.ui.fileList| >= |ui.fileList|
      && r.ui.fileList[..|ui.fileList|] == ui.fileList
      && r.ui.fileList[|ui.fileList|..] == Listing(Tree(s, ui.addr, fetch, decode).tree.entries)
  {
    var t := Tree(s, ui.addr, fetch, decode);
    match t.err
    case Some(e) => Web.ListOutcome(ui, Some(e))
    case None => Web.ListOutcome(ui.(fileList := ui.fileList + Listing(t.tree.entries)), None)
  }

  /** `onFileListClick`: a file item opens its content at the child path; nothing else reacts. */
  function Click(ui: Web.UI, item: Web.Item): (n: Web.Navigation)
    ensures item.handler == Web.ContentHandler ==> n == Web.OpenContent(Web.ClickTarget(ui.addr, item.text))
    ensures item.handler != Web.ContentHandler ==> n == Web.Stay
  {
    if item.handler == Web.ContentHandler then Web.OpenContent(Web.ClickTarget(ui.addr, item.text)) else Web.Stay
  }

  /** The lines of a blob: its bytes split at every newline, each shown as it is. */
  function Lines(c: seq<byte>): (lines: seq<string>)
    ensures |lines| == Count(c, NewlineByte) + 1
    ensures forall i :: 0 <= i < |lines| ==> lines[i] == BytesToString(Split(c, NewlineByte)[i])
  {
    var pieces := Split(c, NewlineByte);
    seq(|pieces|, i requires 0 <= i < |pieces| => BytesToString(pieces[i]))
  }

  /** `fetchContent`: an error is shown as such; otherwise the blob's lines. */
  function FetchContent(content: Result<seq<byte>, Error>): (v: Web.ContentView)
    ensures content.Failure? ==> v == Web.ContentError(content.error)
    ensures content.Success? ==> v == Web.ContentLines(Lines(content.value))
  {
    match content
    case Failure(e) => Web.ContentError(e)
    case Success(c) => Web.ContentLines(Lines(c))
  }

  /** Splitting bytes and then converting each piece is splitting the converted text. */
  lemma {:induction false} SplitCommutesWithString(c: seq<byte>)
    ensures |Split(BytesToString(c), '\n')| == |Split(c, NewlineByte)|
    ensures forall i :: 0 <= i < |Split(c, NewlineByte)| ==>
      Split(BytesToString(c), '\n')[i] == BytesToString(Split(c, NewlineByte)[i])
  {
    if |c| > 0 {
      var t := BytesToString(c);
      assert t[1..] == BytesToString(c[1..]);
      assert t[0] == '\n' <==> c[0] == NewlineByte;
      SplitCommutesWithString(c[1..]);
      var pt := Split(t[1..], '\n');
      var pc := Split(c[1..], NewlineByte);
      if c[0] != NewlineByte {
        assert BytesToString([c[0]] + pc[0]) == [t[0]] + pt[0];
      }
    }
  }

  /**
   The current browser shows the same lines as the older one, except that an empty
   line is shown as a single space.
   */
  lemma LinesMatchCurrent(c: seq<byte>)
    ensures |Web.DisplayLines(BytesToString(c))| == |Lines(c)|
    ensures forall i :: 0 <= i < |Lines(c)| ==>
      Web.DisplayLines(BytesToString(c))[i] == (if Lines(c)[i] == "" then " " else Lines(c)[i])
  {
    SplitCommutesWithString(c);
  }
}
