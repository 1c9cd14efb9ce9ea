# StringImageBinaryToStream, modelled in Dafny

The program rewrites an HTML document. Every `<img>` whose `src` holds an
inline image (`data:image/<format>;<marker>,<base64 payload>`) gets a new
`src`. The image is decoded and uploaded to a blob container under the key
`<master folder>/<run folder>/<GUID without hyphens>.<format>`, with content
type `image/<format>`, and the `src` becomes the URL the storage service
answers. All other nodes and attributes stay as they were. The first failure
aborts the run, and no document is produced.

The project models the core of `src/StringImageBinaryToStream/Program.cs`:
the walker `ProcessHtmlInput`, the extractor `ProcessImageAsync` and the
persister `SaveImageAsync`.

- `text.dfy` (module `Text`) holds the string primitives the code relies on:
  - the case-insensitive prefix test (ASCII case folding);
  - the first-occurrence search behind `IndexOf`;
  - the removal of every `-` behind `Replace("-", "")`.
- `data_uri.dfy` (module `DataUri`) holds the extractor's reading of a `src`
  value as a pure function, `Extract`. It returns one of:
  - `Referenced` (kept as it is);
  - `Malformed` (the range `[11..IndexOf(";")]` throws);
  - `Inline(format, payload)`.
- `naming.dfy` (module `Naming`) holds the blob file name, the blob key and
  the content type.
- `storage.dfy` (module `Storage`) holds the persister:
  - the outcome types;
  - the specification function `Save`;
  - the storage service, `BlobService`: a class built on a fixed reply
    function, with a ghost log of every upload issued to it;
  - the imperative `SaveImage`, proved to do what `Save` says, to the log
    included.
- `walker.dfy` (module `Walker`) holds the walker:
  - the document as an `array<Element>` of element nodes in document order,
    each a tag and an attribute map;
  - the per-node step `RewriteNode`;
  - the walk `Walk` over any per-node step;
  - `ExpectedPuts`, the uploads a successful run should issue: one per
    inline image whose payload decodes, in document order;
  - the methods `ProcessImage`, `ProcessNode`, `VisitNode` and
    `ProcessHtmlInput`, which update the array and the service's log in
    place, each proved against those functions.

The environment enters as parameters:
- `Settings.accountParses` is the connection-string parser's answer at line
  97.
- `decode` is `Convert.FromBase64String` as a partial function (`None` means
  it throws).
- `guidOf(i)` is the GUID drawn when node `i` is saved.
- `BlobService.reply` is the service's answer to an upload: `None` means the
  upload throws, `Some(url)` means it succeeds with that URL.

The code keeps some inputs that a stricter reading of the inline-image format
would reject. The model follows the code:
- An empty format (`data:image/;base64,`) is accepted. The range `[11..11]`
  is empty, not out of bounds, so the blob is named `<guid>.` with content
  type `image/` (`EmptyFormatAccepted`).
- The marker between `;` and `,` is never checked. Whatever follows the first
  `,` goes to the decoder, whether or not the marker says `base64`.
- With no `,`, `IndexOf` answers -1 and the payload is the whole `src` value.
  The decoder then fails on the `:` of `data:`, so no upload is issued
  (`NoCommaNeverUploads`).
- An `img` element without `src` reads as `""`. It is written back as
  `src=""` (line 53 always sets the attribute).

## Model

| member | source | states |
|---|---|---|
| Text.Fold | src/StringImageBinaryToStream/Program.cs:73 | case folding for the ignore-case comparison: the result is never an upper-case letter, and differs from the input only for an upper-case letter, which moves to its lower-case form |
| Text.FoldFixedAt | src/StringImageBinaryToStream/Program.cs:73 | a character that is not a letter occurs at a position of a string exactly when it occurs there in any string equal to it up to case |
| Text.IndexOf | src/StringImageBinaryToStream/Program.cs:76-77 | the answer is -1 exactly when the character is absent, and otherwise a position holding it with no earlier occurrence |
| Text.IndexOfFirst | src/StringImageBinaryToStream/Program.cs:76-77 | conversely, a position holding the character with none before it is the one the search answers |
| Text.RemoveAll | src/StringImageBinaryToStream/Program.cs:95 | the result holds no occurrence of the removed character and is no longer than the input |
| Text.RemoveAllCounts | src/StringImageBinaryToStream/Program.cs:95 | every other character is kept as many times as it occurs (multiset equality) |
| Text.RemoveAllAbsent | src/StringImageBinaryToStream/Program.cs:95 | removing a character that does not occur leaves the string as it was |
| Text.RemoveAllAppend | src/StringImageBinaryToStream/Program.cs:95 | removal distributes over concatenation, so the kept characters keep their order |
| DataUri.DelimiterNotInPrefix | src/StringImageBinaryToStream/Program.cs:73-77 | in a value that starts with `data:image/` up to case, neither `;` nor `,` occurs among the first eleven characters |
| DataUri.ExtractPaths | src/StringImageBinaryToStream/Program.cs:73-80 | a value is kept exactly when it does not start with `data:image/` up to case; an inline value fails exactly when it holds no `;` |
| DataUri.ExtractFormat | src/StringImageBinaryToStream/Program.cs:76 | the format is the text from index 11 up to the first `;`, which sits right after it, and it holds no `;` |
| DataUri.ExtractPayload | src/StringImageBinaryToStream/Program.cs:77 | the payload is the whole value when it holds no `,`; otherwise it is the text after the first `,`, which lies past the prefix |
| DataUri.InlineRoundTrip | src/StringImageBinaryToStream/Program.cs:73-77 | a value built as `<prefix><format>;<marker>,<payload>`, with a prefix matching `data:image/` up to case and no delimiter in the format or the marker, is read back as exactly that format and that payload |
| DataUri.EmptyFormatAccepted | src/StringImageBinaryToStream/Program.cs:76 | `data:image/;base64,` is read as an inline image with empty format and empty payload |
| DataUri.NoDelimitersMalformed | src/StringImageBinaryToStream/Program.cs:76 | `data:image/pngbase64nodata` makes the extraction fail |
| Naming.FileNameShape | src/StringImageBinaryToStream/Program.cs:95 | the file name ends with `.` and the format; in front of that it holds exactly the GUID's characters other than `-`, and no `-` |
| Naming.FileNameOfPlainGuid | src/StringImageBinaryToStream/Program.cs:95 | a GUID text without hyphens is kept as it is in front of the extension |
| Naming.FileNameInjective | src/StringImageBinaryToStream/Program.cs:95 | for GUID texts without `.`, two file names are equal exactly when the GUID texts agree once their hyphens are removed and the formats are equal |
| Naming.BlobKeyInjective | src/StringImageBinaryToStream/Program.cs:110 | within one master folder, and with folder names free of `/`, two keys are equal exactly when their folders and file names are equal |
| Naming.ContentTypeEchoesMediaType | src/StringImageBinaryToStream/Program.cs:111 | for an inline value, the content type equals, up to case, the media type written in the value (from `image/` to the `;`) |
| Storage.Save | src/StringImageBinaryToStream/Program.cs:92-129 | one save issues at most one upload |
| Storage.SaveOutcomes | src/StringImageBinaryToStream/Program.cs:92-129 | an upload is issued only after the connection string parsed and the payload decoded; it carries the decoded bytes, the container, the key `master/folder/file` and the content type `image/<format>`; once the connection string parsed and the payload decoded, exactly that one upload is issued and the save answers the service's URL, or the wrapped upload failure when the service rejects it; the save succeeds exactly when the service answers that upload; it fails with the connection error exactly when the connection string does not parse, and with a wrapped decoding error exactly when it parses and the payload does not decode |
| Storage.BlobService.Put | src/StringImageBinaryToStream/Program.cs:112-113 | an upload is appended to the service's log, and the answer is the service's reply to it |
| Storage.SaveImage | src/StringImageBinaryToStream/Program.cs:92-129 | the imperative persister returns what `Save` says and appends exactly `Save`'s uploads to the log |
| Walker.ResolveSrcPaths | src/StringImageBinaryToStream/Program.cs:71-81 | a non-inline `src` is returned unchanged with no upload; an inline `src` without `;` fails with no upload; an upload happens only for an inline `src`, with the bytes decoded from its payload, under the key `master/folder/<guid>.<format>` and with the content type `image/<format>` of its format; an inline `src` whose payload decodes is uploaded exactly once when the connection string parses; a successful inline `src` is replaced by the URL the service gave for that upload |
| Walker.NoCommaNeverUploads | src/StringImageBinaryToStream/Program.cs:77-78 | an inline `src` without `,` sends the whole value to a decoder that refuses non-base64 characters, so it fails with no upload |
| Walker.RewriteNodeMeaning | src/StringImageBinaryToStream/Program.cs:52-53 | a node that is not `img` is left alone with no upload; a successful step changes only an `img` node's `src`, to the extractor's answer |
| Walker.RewriteNodeUploads | src/StringImageBinaryToStream/Program.cs:110-112 | one node's step issues at most one upload, into the configured container, under `<master>/<folder>/`, with an `image/` content type |
| Walker.WalkNodeByNode | src/StringImageBinaryToStream/Program.cs:52-53 | a walk that succeeds holds, at every position, what its step produced for that node at that position |
| Walker.WalkWithoutUploads | src/StringImageBinaryToStream/Program.cs:52-53 | a walk whose every step succeeds with no upload succeeds with no upload |
| Walker.FailedPrefixDecides | src/StringImageBinaryToStream/Program.cs:52-54 | once the walk over a prefix has failed, the walk over the whole document is that failure, with no further upload |
| Walker.FirstFailureAborts | src/StringImageBinaryToStream/Program.cs:52-54 | the first failing node decides the outcome: its failure, after the uploads of the nodes before it and its own |
| Walker.WalkAdvance | src/StringImageBinaryToStream/Program.cs:52-53 | one more successful node appends its rewritten node and its uploads to the walk over the nodes before it |
| Walker.WalkPutsSatisfy | src/StringImageBinaryToStream/Program.cs:52-53 | every upload of a walk is an upload of one of its steps |
| Walker.WalkPutsBound | src/StringImageBinaryToStream/Program.cs:52-53 | when each step uploads at most once, the walk uploads at most once per node |
| Walker.StepSucceeds | src/StringImageBinaryToStream/Program.cs:52-53 | after a successful node, the loop state covers one more node: rewritten prefix, untouched rest, log of the walk's uploads |
| Walker.StepFails | src/StringImageBinaryToStream/Program.cs:52-54 | after a failing node, the whole walk fails with that node's failure, and the log holds the walk's uploads |
| Walker.UploadsUnderFolder | src/StringImageBinaryToStream/Program.cs:49-54 | one run uploads at most one blob per node, each into the configured container under `<master>/<folder>/` with an image content type |
| Walker.FolderPrefixesExclusive | src/StringImageBinaryToStream/Program.cs:110 | two folder names without `/` whose key prefixes `<master>/<folder>/` both begin one blob key are the same folder |
| Walker.RunsNeverShareAKey | src/StringImageBinaryToStream/Program.cs:110 | two runs with different folder names without `/` never upload to the same key, whatever their documents, GUIDs and service answers |
| Walker.RewriteNodeStores | src/StringImageBinaryToStream/Program.cs:71-129 | a node whose step succeeds has issued exactly the expected upload: for an `img` node with an inline `src` whose payload decodes, one upload of the decoded bytes under `master/folder/<guid>.<format>` with content type `image/<format>`; for any other node, none |
| Walker.RunStoresInlineImages | src/StringImageBinaryToStream/Program.cs:41-65 | a run that succeeds has uploaded every inline image of the document exactly once, in document order, with its decoded bytes, key and content type, and nothing else |
| Walker.RewriteNodeNamedFor | src/StringImageBinaryToStream/Program.cs:95-110 | every upload of a node's step goes to a key starting with `<master>/<folder>/`, the node's GUID without hyphens and `.` |
| Walker.NamedForExclusive | src/StringImageBinaryToStream/Program.cs:110 | a key named for two GUIDs without `.` in one folder can only be so when the GUIDs agree once their hyphens are removed |
| Walker.WalkPutsOwned | src/StringImageBinaryToStream/Program.cs:49-54 | every upload of a walk was issued by the step of one of its nodes, and has the property that step's uploads have for its position |
| Walker.WalkKeysNamed | src/StringImageBinaryToStream/Program.cs:49-54 | every upload of a run goes to a key named for the GUID drawn for one of its nodes |
| Walker.RunKeysDistinct | src/StringImageBinaryToStream/Program.cs:41-65 | no two uploads of one run, failed or not, share a key, as long as the GUIDs drawn hold no `.` and differ once their hyphens are removed |
| Walker.RewrittenNodeByNode | src/StringImageBinaryToStream/Program.cs:49-54 | a successful run changes every `img` node's `src` alone, to the extractor's answer for it, and leaves every other node as it was |
| Walker.NoInlineImageNoUpload | src/StringImageBinaryToStream/Program.cs:49-54 | a document without an inline image succeeds with no upload; each `img` node only has its `src` written back as it reads |
| Walker.ReferencedDocumentUnchanged | src/StringImageBinaryToStream/Program.cs:49-54 | when every `img` node has a non-inline `src`, the document comes out unchanged and nothing is uploaded |
| Walker.ProcessImage | src/StringImageBinaryToStream/Program.cs:71-81 | the extractor on node `i` returns the answer `ResolveSrc` specifies, appends its uploads to the log, and sets the node's `src` only when an inline image was saved |
| Walker.ProcessNode | src/StringImageBinaryToStream/Program.cs:52-53 | the loop body on node `i` returns the node that `RewriteNode` specifies, writes it into position `i` and nothing else; on failure the array is left as it was; its uploads are appended to the log |
| Walker.VisitNode | src/StringImageBinaryToStream/Program.cs:52-54 | one iteration extends the walk's invariant by one node, or ends with the whole walk's failure and its uploads in the log |
| Walker.ProcessHtmlInput | src/StringImageBinaryToStream/Program.cs:41-65 | the walker's result and the uploads in the log are those of `Walk` over the document as it was; on success the document holds the returned nodes |

## Left out

- HTML parsing and serialisation (`LoadHtml`, `SelectNodes("//img")`, `Save`) come from a foreign library. The document is the array of its element nodes in document order; `img` nodes are selected by their lower-case tag, as the parser stores it.
- Walker.ProcessHtmlInput: returns the rewritten node sequence, not the serialised HTML string of lines 57-63.
- The storage client is network I/O: account parsing, client and container creation, blob references, the upload and the URL. It is replaced by `Settings.accountParses` and the `BlobService` reply function. A failure anywhere in the try block other than decoding is folded into a rejected upload.
- `Main` and `ProcessAsync` (file read, console output, the run's folder GUID, lines 24-35) are not part of this model; the folder name is a parameter.
- GUID generation is randomness. `guidOf(i)` gives the GUID drawn for node `i`, and the GUID text is any string. That the GUIDs of one run differ, and hold no `.`, is not modelled: it is the hypothesis of `RunKeysDistinct`, resting on the randomness of `Guid.NewGuid`.
- The internals of `Convert.FromBase64String` come from a library. The decoder is a parameter; only `NoCommaNeverUploads` assumes it refuses characters outside the base64 alphabet, the pad and white space.
- `async`/`await` and `ConfigureAwait` are left out. The code awaits each call before the next, so the model is sequential.
- Text.Fold: ASCII case folding only. `InvariantCultureIgnoreCase` matches more pairs, and ignores some zero-width characters; with such characters the prefix could match over more than eleven characters, which the model does not capture.
- Text.IndexOf: searches for the exact character. `IndexOf` with `InvariantCultureIgnoreCase` at lines 76 and 77 skips ignorable characters and may refuse a match followed by a combining character; the model does not capture those positions.
- Text.RemoveAll: removes the exact character. The culture-aware `Replace` of line 95 has the same ignorable-character behaviour; on the hyphenated GUID text the two agree.
- Exception types and messages are left out. A failure is one of `MalformedDataUri`, `ConnectionFailed` and `SaveFailed(cause)`, the last standing for the wrapping exception of line 121.
- The settings constants of lines 20-22 are placeholders in the source. They are fields of `Settings`.
