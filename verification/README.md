# gotiles in Dafny

A Dafny model of the pure core of gotiles, a Go client for the Gitiles source
browser plus a small browser UI that lists directory trees and shows file contents.

The model covers three parts:

- **The client (gotile.go).** `Tree` and `BlobContentString` build their request URLs. For a tree, an empty path becomes `.`. `getJSON` removes the anti-hijacking first line of a response and hands the rest to the JSON decoder. `unmarshalGitiles` returns the decoder's outcome unchanged.
- **Blob decoding (base64_linux.go, built without the `js` tag).** Here `nativeAtoB` decodes standard, padded base64 as in section 4 of RFC 4648, using Go's `base64.StdEncoding`. It folds a decode failure into the returned text as `"error: " + message`.
- **The browser (web/web.go and the older web/gotiles.go).** Each entry is classified from its mode. The class decides the click handler. Below the root a synthetic `..` entry is added. A click's target path is computed with `filepath.Join`, `filepath.Clean` and `strings.TrimLeft`. Blob text is split into display lines.

The files are:

| file | module | models |
|---|---|---|
| wrappers.dfy | `Wrappers` | `Option` and `Result` for Go's `(value, error)` returns |
| text.dfy | `Text` | `strings.Split`, joining, `strings.TrimLeft`, `strconv.FormatInt`, `string([]byte)` |
| gopath.dfy | `GoPath` | `filepath.Clean` and `filepath.Join` as lexical processing of path elements |
| base64.dfy | `Base64` | `base64.StdEncoding.DecodeString`, an RFC 4648 encoder, `nativeAtoB` |
| gotile.dfy | `Gotile` | data types, URLs, `getJSON`, `unmarshalGitiles`, `Tree`, `BlobContentString` |
| web.dfy | `Web` | web/web.go: classification, routing, `..` entry, clicks, `fetchFileList`, `fetchContent` |
| legacy.dfy | `LegacyWeb` | web/gotiles.go: the older listing, click and content display |

Modelling conventions:

- A Go `string` is a byte string. It is modelled as a Dafny `string` with one character per byte, so lengths and splits agree with Go's.
- `[]byte` is `seq<byte>`, where `byte` is an integer from 0 to 255.
- A Go `error` is `Gotile.Error`. It is either the missing-header error, which carries the payload it quotes, or an opaque error from the transport or the JSON decoder.
- The transport (`http.Get` followed by `ioutil.ReadAll`) is the parameter `fetch: string -> Result<seq<byte>, Error>`.
- The JSON decoder is the parameter `decode: seq<byte> -> TreeOutcome`. It yields the decoded response and the error. Go's decoder can leave its destination partly filled when it fails, and `Tree` returns that destination either way.
- `NewService` is modelled by the `Service` datatype's constructor.
- The UI's state is its address and the rendered file list, each item being a name and a click handler. Alerts, the content pane and the request a click starts are outputs.

Behaviour of the code worth knowing:

- In the native build, a base64 failure in `BlobContentString` is not returned as an error. It is folded into the returned text (base64_linux.go:10-11). The browser build decodes differently; see "Left out".
- The missing-header error is built with `fmt.Errorf` (gotile.go:91). Errors from the transport and from the JSON decoder are returned as they are.
- For modes 0100755 and 0120000, classification replaces the server's type.
- The `..` entry is appended after the server's entries (web/web.go:132-139).

## Model

| member | source | states |
|---|---|---|
| Text.Split | web/web.go:55 | there is one more piece than separators, no piece contains the separator, and joining the pieces with it gives back the text |
| Text.SplitJoin | web/gotiles.go:47 | splitting the join of separator-free pieces gives back those pieces, the other half of the round trip |
| Text.TrimLeft | web/web.go:106 | the result is a suffix of the input; every removed character was `/`, and the result does not start with `/` |
| Text.BytesToString | base64_linux.go:13 | the text has one character per byte, each character's code being that byte |
| Text.Decimal | base64_linux.go:11 | the offset in the error text is written as a non-empty string of decimal digits with no leading zero |
| Text.DecimalRoundTrip | base64_linux.go:11 | reading back the written offset gives the offset |
| GoPath.Resolve | web/web.go:106 | processing elements left to right yields a cleaned list: only names and `..`, `..` only as a leading run, and none in a rooted path |
| GoPath.Clean | web/web.go:106 | the cleaned path is never empty and is rooted exactly when the input is |
| GoPath.CleanIdempotent | web/web.go:106 | cleaning a cleaned path changes nothing |
| GoPath.Join | web/web.go:106 | the join is empty only when both arguments are, and otherwise is already clean |
| GoPath.JoinName | web/web.go:106 | joining a plain name onto a cleaned relative path appends it as a new last element, and `.` joined with a name is the name |
| GoPath.JoinParent | web/web.go:120 | joining `..` onto a path of plain names removes its last element, giving `.` when none is left |
| Base64.DecodeSextet | base64_linux.go:9 | a byte of the standard alphabet (A-Z, a-z, 0-9, `+`, `/`) maps to the 6-bit value that encodes back to it; any other byte maps to -1 |
| Base64.Message | base64_linux.go:11 | the error text is the fixed `illegal base64 data at input byte ` followed by decimal digits, with no leading zero, that read back as the offset |
| Base64.DecodeAt | base64_linux.go:9 | the offset of a reported decode error lies within the input |
| Base64.Decode | base64_linux.go:9 | decoding succeeds exactly on well-formed padded input, giving 3 bytes per quantum minus one per `=`; a failure's offset is at most the input length |
| Base64.DecodeAtCharacterized | base64_linux.go:9-12 | decoding succeeds exactly on well-formed padded input, and then yields 3 bytes per quantum minus one per `=` |
| Base64.DecodeRejectsMalformed | base64_linux.go:9-12 | malformed input is rejected with an offset no greater than the input length; nothing is silently truncated |
| Base64.DecodedLength | base64_linux.go:9 | valid input of length 4k ending in p padding characters decodes to 3k − p bytes |
| Base64.DecodeEncode | base64_linux.go:9 | decoding the standard padded encoding of any byte string gives that byte string |
| Base64.NativeAtoB | base64_linux.go:8-14 | valid input gives its decoded bytes as text; malformed input gives `"error: illegal base64 data at input byte N"` with N within the input |
| Base64.NativeAtoBRoundTrip | base64_linux.go:9-13 | the text of encoded content is that content |
| Base64.FoldedErrorIsAmbiguous | base64_linux.go:10-13 | for every malformed body, its error text is also the content of a well-formed body that shows identically, so the caller cannot tell a failure from content |
| Base64.NativeAtoBHello | base64_linux.go:9-13 | the body `aGVsbG8=` shows as `hello` |
| Gotile.TreeDir | gotile.go:67-70 | a tree request never names an empty directory: `""` becomes `.` and any other path is kept |
| Gotile.TreeUrl | gotile.go:67-71 | the tree URL is `{base}/{repo}/+/{branch}/`, then the directory, never empty, then `?format=JSON` |
| Gotile.BlobUrl | gotile.go:51 | the blob URL is `{base}/{repo}/+show/{branch}/`, then the path exactly as given, then `?format=TEXT` |
| Gotile.TreeUrlPaths | gotile.go:67-71 | within one repository and branch, two tree URLs are equal exactly when the paths are equal or are `""` and `.` |
| Gotile.BlobUrlPaths | gotile.go:51 | within one repository and branch, two blob URLs are equal exactly when the paths are equal, because the path is used verbatim |
| Gotile.TreeUrlRoot | gotile.go:67-71 | repository `x`, branch `main` and an empty path give `{base}/x/+/main/.?format=JSON` |
| Gotile.IndexByte | gotile.go:89 | the result is the index of the first newline, or -1 exactly when there is none |
| Gotile.StripHeader | gotile.go:89-94 | without a newline the result is the missing-header error carrying the whole body; otherwise it is everything after the first newline |
| Gotile.UnmarshalGitiles | gotile.go:100-106 | the decoder's error and destination are returned unchanged, so there is no error exactly when the decoder reports none |
| Gotile.DecodeFramed | gotile.go:89-97 | a body without a newline yields the missing-header error and an empty response |
| Gotile.DecodeFramedSkipsFirstLine | gotile.go:89-96 | for any first line, the outcome is the decoder's outcome on exactly the bytes after it, later newlines included |
| Gotile.MissingHeaderSkipsDecoder | gotile.go:89-92 | without a newline, the outcome does not depend on the decoder |
| Gotile.GetJson | gotile.go:77-98 | a transport error is returned unchanged with an empty response; otherwise the body is decoded as a framed response |
| Gotile.Tree | gotile.go:66-75 | a transport failure at the tree URL gives the empty response and that error; a body without a newline gives the empty response and the missing-header error; otherwise the outcome is the decoder's on the bytes after the first newline |
| Gotile.TreeFramedBody | gotile.go:66-98 | when the server's body at the tree URL is a first line followed by `rest`, the listing is exactly the decoder's outcome on `rest` |
| Gotile.TreeEmptyPathIsRoot | gotile.go:67-74 | listing the empty path has the same outcome as listing `.` |
| Gotile.BlobContentString | gotile.go:50-64 | transport errors come back with empty text; once the body is read, the error is nil and the text is `nativeAtoB` of the body |
| Gotile.BlobContentRoundTrip | gotile.go:50-64 | a server returning the encoding of some content yields that content with no error |
| Web.Classify | web/web.go:143-150 | mode 0100755 gives `xblob`, mode 0120000 gives `slink`, and every other mode keeps the entry's type |
| Web.Route | web/web.go:155-159 | the content handler goes exactly to `blob` and `xblob`, the tree handler exactly to `tree`, and no other class gets one |
| Web.HandlerByMode | web/web.go:143-159 | executables always open as content and symbolic links are never clickable, whatever their type; other entries are routed by type alone |
| Web.RenderListing | web/web.go:141-162 | one item per entry, in entry order, showing the entry's name with the handler of its class |
| Web.WithParent | web/web.go:132-139 | below the root, a `..` tree entry with mode 040000 is appended last and the server's entries stay an unchanged prefix; at `""` or `.` nothing is added |
| Web.FetchFileList | web/web.go:124-165 | an error raises an alert and leaves the UI unchanged; success replaces the list with the rendered listing and sets the address |
| Web.AddressFollowsSuccess | web/web.go:126-164 | the address either stays the same or becomes the fetched one, and it changes only when the fetch succeeded |
| Web.ListingShape | web/web.go:132-162 | a successful listing shows each server entry's name in order; below the root it ends with a `..` item that opens a listing |
| Web.ChildPath | web/web.go:102-106 | the target path never starts with `/`, and when not empty it is already clean |
| Web.ClickTarget | web/web.go:116-120 | a click keeps the repository and branch and moves to the child path |
| Web.Click | web/web.go:96-122 | a file item opens its content, a directory item opens its listing, and an item without a handler does nothing |
| Web.ChildPathOfEmpty | web/web.go:103-105 | an empty current path is treated as `.` |
| Web.ChildPathOfName | web/web.go:106 | clicking a name below a directory appends the name to the directory's path |
| Web.ChildPathOfParent | web/web.go:120 | clicking `..` removes the last path element (`a/b` becomes `a`, `a` becomes `.`), and a single-element path leads to the root |
| Web.IntoAndBackOut | web/web.go:116-120 | entering a directory and then clicking `..` returns to the starting path |
| Web.ParentItemOpensParent | web/web.go:110-165 | after a successful listing below the root, the last item opens the parent directory's listing |
| Web.DisplayLines | web/web.go:55-62 | there is one line per newline plus one; each empty piece is shown as `" "` and every other piece unchanged |
| Web.DisplayLinesNonEmpty | web/web.go:59-62 | no display line is empty, and empty content shows as one `" "` line |
| Web.FetchContent | web/web.go:46-66 | an error replaces the content with the error; otherwise the pane shows the display lines of the decoded text |
| LegacyWeb.Route | web/gotiles.go:115-117 | only `blob` and `xblob` get a handler, which opens content; trees get none |
| LegacyWeb.RouteWithoutTrees | web/gotiles.go:115-117 | the older routing is the current routing with directory navigation removed |
| LegacyWeb.Listing | web/gotiles.go:102-119 | one item per server entry, in order, with its name, classified as web/web.go does; no `..` item |
| LegacyWeb.ListingMatchesAtRoot | web/gotiles.go:102-119 | at the root both listings show the same names; they differ only in that directories are not clickable in the older one |
| LegacyWeb.FetchFileList | web/gotiles.go:95-120 | the UI's own address is listed and never changes; an error raises an alert, and success appends the items to the existing list |
| LegacyWeb.Click | web/gotiles.go:81-93 | a file item opens its content at the child path, computed as in web/web.go; other items do nothing |
| LegacyWeb.Lines | web/gotiles.go:47-53 | there is one line per newline plus one, and each piece is shown as is, empty pieces staying empty |
| LegacyWeb.FetchContent | web/gotiles.go:39-54 | an error is shown as the content; otherwise the blob's lines |
| LegacyWeb.LinesMatchCurrent | web/gotiles.go:47-53 | the current browser shows the same lines, except that an empty line becomes `" "` |

## Left out

- HTTP transport (`http.Get`, `ioutil.ReadAll`, closing the body): I/O. It is the `fetch` parameter.
- `encoding/json` decoding into a `TreeResponse`: library code. It is the `decode` parameter. The JSON scenario of a framing line followed by an entry list is therefore not modelled.
- `jsUnmarshal` in json_gopherjs.go: unreachable after that file's early return, and it works on foreign JavaScript objects.
- base64_gopherjs.go: it calls the browser's `atob`, a foreign function.
- `Service.BlobContent`: web/gotiles.go:40 calls it, but gotile.go defines no such method, only `BlobContentString` (gotile.go:50). That file does not build against this library as written. The older `fetchContent` takes the call's outcome as a parameter.
- Web.FetchContent: models the pairing of `BlobContentString` with the native `nativeAtoB` of base64_linux.go. Both UIs import gopherjs and the DOM bindings (web/web.go:25-26, web/gotiles.go:23-24), so they are built with the `js` tag, and base64_linux.go (`+build !js`) is then excluded. In the browser, `nativeAtoB` is base64_gopherjs.go:15-19, which calls the JavaScript `atob`. There, malformed input throws instead of giving `"error: ..."` text, unpadded input is accepted, and characters at or above 0x80 are re-encoded as UTF-8 by `String()`. None of that is modelled.
- DOM manipulation, event-listener wiring, `alert`, `js.MakeWrapper`, `html.EscapeString` of error messages and the breadcrumb text: UI. Only the abstract item list, the alert's error and the content view are kept.
- Goroutine dispatch and the race between concurrent fetches: concurrency. A click yields the request it would start.
- The `timer` logging: wall clock and logging only.
- `TreeOrErrorResponse`, `Project`, `Person`, `DiffEntry`, `Commit`, `Log`, `BlameRegion`, `Blame`: declarations with no behaviour.
- Gotile.Error: the missing-header error keeps the raw payload rather than its `%q`-quoted message text, because Go's string quoting rules are not modelled.
- Base64.DecodeAt: treats CR and LF as illegal characters, while Go's decoder skips them anywhere in the input. Bodies containing line breaks therefore fail here but may decode in Go.
