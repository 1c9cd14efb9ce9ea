/** The document walker and the per-node extractor (ProcessHtmlInput and
    ProcessImageAsync, src/StringImageBinaryToStream/Program.cs:41-81). The parsed
    document is the array of its element nodes in document order, each a tag
    name and an attribute map; the walker rewrites the `src` of every `img`
    element in place. */
module Walker {
  import opened Text
  import opened DataUri
  import opened Naming
  import opened Storage

  /** An element node: its tag name as the parser stores it (lower case) and
      its attributes. */
  datatype Element = Element(tag: string, attributes: map<string, string>)

  /** The nodes the walker selects with the `//img` path. */
  predicate IsImage(e: Element) {
    e.tag == "img"
  }

  /** The attribute's value, or `default` when the element does not carry it. */
  function GetAttribute(e: Element, name: string, default: string): string {
    if name in e.attributes then e.attributes[name] else default
  }

  /** The element with the attribute set (added when it was absent). */
  function SetAttribute(e: Element, name: string, value: string): Element {
    e.(attributes := e.attributes[name := value])
  }

  /** `after` is `before` with its `src` set to some value and nothing else
      changed. */
  predicate SrcOnlyChanged(before: Element, after: Element) {
    && after.tag == before.tag
    && "src" in after.attributes
    && after.attributes == before.attributes["src" := after.attributes["src"]]
  }

  /** `after` is what the walker makes of `before`: an `img` element whose `src`
      alone was set, to the extractor's answer for it; any other element as it
      was. */
  predicate Rewritten(settings: Settings, folderName: string, before: Element, guid: string,
                      decode: string -> Option<seq<byte>>, reply: PutCall -> Option<string>, after: Element)
  {
    if IsImage(before) then
      && SrcOnlyChanged(before, after)
      && ResolveSrc(settings, folderName, GetAttribute(before, "src", ""), guid, decode, reply).result
         == Ok(after.attributes["src"])
    else after == before
  }

  /** The value ProcessImageAsync returns for a node whose `src` reads `src`
      (an absent attribute reads as ""), with the uploads it issues. */
  function ResolveSrc(settings: Settings, folderName: string, src: string, guid: string,
                      decode: string -> Option<seq<byte>>, reply: PutCall -> Option<string>): Run<string>
  {
    match Extract(src)
    case Referenced => Run(Ok(src), [])
    case Malformed => Run(Err(MalformedDataUri), [])
    case Inline(format, payload) => Save(settings, folderName, format, payload, guid, decode, reply)
  }

  /** The extractor's three paths: a value without the inline prefix comes back
      unchanged with no upload; an inline value without ';' fails with no
      upload; an upload is issued only for an inline value, with the bytes
      decoded from its payload, under the key and with the content type
      derived from its format; an inline value whose payload decodes, once the
      connection string has parsed, is uploaded exactly once; and a successful
      inline value answers the URL the backend gave for that upload. */
  lemma ResolveSrcPaths(settings: Settings, folderName: string, src: string, guid: string,
                        decode: string -> Option<seq<byte>>, reply: PutCall -> Option<string>)
    ensures var r := ResolveSrc(settings, folderName, src, guid, decode, reply);
      && (!StartsWithIgnoreCase(src, ImagePrefix) ==> r == Run(Ok(src), []))
      && (StartsWithIgnoreCase(src, ImagePrefix) && ';' !in src ==> r == Run(Err(MalformedDataUri), []))
      && (r.puts != [] ==> Extract(src).Inline? && decode(Extract(src).payload) == Some(r.puts[0].bytes))
      && (Extract(src).Inline? ==>
            var format := Extract(src).format;
            && (forall c :: c in r.puts ==>
                  && c.key == BlobKey(settings.masterFolderName, folderName, FileName(guid, format))
                  && c.contentType == ContentType(format))
            && (settings.accountParses && decode(Extract(src).payload).Some? ==> |r.puts| == 1)
            && (r.result.Ok? ==> r.puts != [] && reply(r.puts[0]) == Some(r.result.value)))
  {
    ExtractPaths(src);
    if Extract(src).Inline? {
      SaveOutcomes(settings, folderName, Extract(src).format, Extract(src).payload, guid, decode, reply);
    }
  }

  /** One step of the walker's loop: an `img` element gets its `src` set to the
      extractor's answer; any other element is left alone. */
  function RewriteNode(settings: Settings, folderName: string, e: Element, guid: string,
                       decode: string -> Option<seq<byte>>, reply: PutCall -> Option<string>): Run<Element>
  {
    if !IsImage(e) then Run(Ok(e), [])
    else
      var resolved := ResolveSrc(settings, folderName, GetAttribute(e, "src", ""), guid, decode, reply);
      match resolved.result
      case Err(f) => Run(Err(f), resolved.puts)
      case Ok(src) => Run(Ok(SetAttribute(e, "src", src)), resolved.puts)
  }

  /** The walker's loop for any per-node step: the nodes are visited in
      document order, `step(e, i)` giving the outcome for node `e` at position
      `i`; the first failure ends the walk, and the uploads issued before it
      stay issued. */
  function Walk(nodes: seq<Element>, step: (Element, nat) -> Run<Element>): (r: Run<seq<Element>>)
    ensures r.result.Ok? ==> |r.result.value| == |nodes|
    decreases |nodes|
  {
    if |nodes| == 0 then Run(Ok([]), [])
    else
      var n := |nodes| - 1;
      var done := Walk(nodes[..n], step);
      if done.result.Err? then done
      else
        var last := step(nodes[n], n);
        match last.result
        case Err(f) => Run(Err(f), done.puts + last.puts)
        case Ok(e) => Run(Ok(done.result.value + [e]), done.puts + last.puts)
  }

  /** A walk that succeeds holds, at every position, the node its step
      produced there. */
  lemma {:induction false} WalkNodeByNode(nodes: seq<Element>, step: (Element, nat) -> Run<Element>)
    ensures var r := Walk(nodes, step);
      r.result.Ok? ==> forall i :: 0 <= i < |nodes| ==> step(nodes[i], i).result == Ok(r.result.value[i])
    decreases |nodes|
  {
    var r := Walk(nodes, step);
    if |nodes| > 0 && r.result.Ok? {
      var n := |nodes| - 1;
      WalkNodeByNode(nodes[..n], step);
      var done := Walk(nodes[..n], step);
      assert forall i :: 0 <= i < n ==> nodes[..n][i] == nodes[i] && r.result.value[i] == done.result.value[i];
    }
  }

  /** A walk whose every step succeeds without uploading succeeds without
      uploading. */
  lemma {:induction false} WalkWithoutUploads(nodes: seq<Element>, step: (Element, nat) -> Run<Element>)
    requires forall i :: 0 <= i < |nodes| ==> step(nodes[i], i).result.Ok? && step(nodes[i], i).puts == []
    ensures Walk(nodes, step).result.Ok? && Walk(nodes, step).puts == []
    decreases |nodes|
  {
    if |nodes| > 0 {
      var n := |nodes| - 1;
      assert forall i :: 0 <= i < n ==> nodes[..n][i] == nodes[i];
      WalkWithoutUploads(nodes[..n], step);
    }
  }

  /** All or nothing: once the walk over a prefix of the document has failed,
      the walk over the whole document fails the same way and issues no further
      upload. */
  lemma {:induction false} FailedPrefixDecides(nodes: seq<Element>, step: (Element, nat) -> Run<Element>, k: nat)
    requires k <= |nodes| && Walk(nodes[..k], step).result.Err?
    ensures Walk(nodes, step) == Walk(nodes[..k], step)
    decreases |nodes|
  {
    if k < |nodes| {
      var n := |nodes| - 1;
      assert nodes[..n][..k] == nodes[..k];
      FailedPrefixDecides(nodes[..n], step, k);
    } else {
      assert nodes[..k] == nodes;
    }
  }

  /** The first node that fails decides the outcome: the walk reports that
      node's failure, and the uploads are those of the nodes before it followed
      by the ones it issued itself; nothing after it runs. */
  lemma FirstFailureAborts(nodes: seq<Element>, step: (Element, nat) -> Run<Element>, k: nat)
    requires k < |nodes|
    requires Walk(nodes[..k], step).result.Ok? && step(nodes[k], k).result.Err?
    ensures Walk(nodes, step) == Run(Err(step(nodes[k], k).result.failure), Walk(nodes[..k], step).puts + step(nodes[k], k).puts)
  {
    assert nodes[..k + 1][..k] == nodes[..k];
    FailedPrefixDecides(nodes, step, k + 1);
  }

  /** One more node: when the walk over the first `i` nodes and the step for
      node `i` both succeed, the walk over the first `i + 1` nodes succeeds
      with the step's node appended and the step's uploads after the earlier
      ones. */
  lemma WalkAdvance(nodes: seq<Element>, step: (Element, nat) -> Run<Element>, i: nat, prefix: seq<Element>, e: Element)
    requires i < |nodes|
    requires Walk(nodes[..i], step).result == Ok(prefix) && step(nodes[i], i).result == Ok(e)
    ensures Walk(nodes[..i + 1], step) == Run(Ok(prefix + [e]), Walk(nodes[..i], step).puts + step(nodes[i], i).puts)
  {
    assert nodes[..i + 1][..i] == nodes[..i];
  }

  /** Every upload of a walk is an upload of one of its steps: a property all
      step uploads have, every walk upload has. */
  lemma {:induction false} WalkPutsSatisfy(nodes: seq<Element>, step: (Element, nat) -> Run<Element>, P: PutCall -> bool)
    requires forall e: Element, i: nat, c: PutCall :: c in step(e, i).puts ==> P(c)
    ensures forall c: PutCall :: c in Walk(nodes, step).puts ==> P(c)
    decreases |nodes|
  {
    if |nodes| > 0 {
      WalkPutsSatisfy(nodes[..|nodes| - 1], step, P);
    }
  }

  /** A walk whose steps issue at most one upload each issues at most one
      upload per node. */
  lemma {:induction false} WalkPutsBound(nodes: seq<Element>, step: (Element, nat) -> Run<Element>)
    requires forall e: Element, i: nat :: |step(e, i).puts| <= 1
    ensures |Walk(nodes, step).puts| <= |nodes|
    decreases |nodes|
  {
    if |nodes| > 0 {
      WalkPutsBound(nodes[..|nodes| - 1], step);
    }
  }

  /** The walker's loop state after one more successful step, over the
      document as a sequence: the rewritten prefix grows by the step's node,
      the rest is untouched, and the log grows by the step's uploads. */
  lemma StepSucceeds(nodes: seq<Element>, step: (Element, nat) -> Run<Element>, i: nat, doc: seq<Element>,
                     e: Element, log0: seq<PutCall>, log: seq<PutCall>)
    requires i < |doc| == |nodes| && doc[i..] == nodes[i..]
    requires Walk(nodes[..i], step).result == Ok(doc[..i]) && step(nodes[i], i).result == Ok(e)
    requires log == (log0 + Walk(nodes[..i], step).puts) + step(nodes[i], i).puts
    ensures doc[i := e][i + 1..] == nodes[i + 1..]
    ensures Walk(nodes[..i + 1], step).result == Ok(doc[i := e][..i + 1])
    ensures log == log0 + Walk(nodes[..i + 1], step).puts
  {
    WalkAdvance(nodes, step, i, doc[..i], e);
    assert doc[i := e][..i + 1] == doc[..i] + [e];
    assert doc[i + 1..] == doc[i..][1..];
  }

  /** The walker's loop state after a failing step: the walk over the whole
      document fails with the step's failure, and the log past its starting
      point holds exactly the walk's uploads. */
  lemma StepFails(nodes: seq<Element>, step: (Element, nat) -> Run<Element>, i: nat,
                  log0: seq<PutCall>, log: seq<PutCall>)
    requires i < |nodes| && Walk(nodes[..i], step).result.Ok? && step(nodes[i], i).result.Err?
    requires log == (log0 + Walk(nodes[..i], step).puts) + step(nodes[i], i).puts
    ensures Walk(nodes, step).result == Err(step(nodes[i], i).result.failure)
    ensures log == log0 + Walk(nodes, step).puts
  {
    FirstFailureAborts(nodes, step, i);
    Regroup(log, log0, Walk(nodes[..i], step).puts, step(nodes[i], i).puts);
  }

  /** Appending two runs of uploads one after the other appends them together. */
  lemma Regroup(log: seq<PutCall>, log0: seq<PutCall>, a: seq<PutCall>, b: seq<PutCall>)
    requires log == (log0 + a) + b
    ensures log == log0 + (a + b)
  {
  }

  /** The step ProcessHtmlInput takes at position `i`; `guidOf(i)` is the GUID
      drawn if node `i` is saved. */
  function NodeStep(settings: Settings, folderName: string, guidOf: nat -> string,
                    decode: string -> Option<seq<byte>>, reply: PutCall -> Option<string>): (Element, nat) -> Run<Element>
  {
    (e: Element, i: nat) => RewriteNode(settings, folderName, e, guidOf(i), decode, reply)
  }

  /** What the walker's step makes of one node. */
  lemma RewriteNodeMeaning(settings: Settings, folderName: string, e: Element, guid: string,
                           decode: string -> Option<seq<byte>>, reply: PutCall -> Option<string>)
    ensures var r := RewriteNode(settings, folderName, e, guid, decode, reply);
      && (!IsImage(e) ==> r == Run(Ok(e), []))
      && (r.result.Ok? ==> Rewritten(settings, folderName, e, guid, decode, reply, r.result.value))
  {
  }

  /** The part of every blob key the run fixes: `<master>/<folder>/`. */
  function FolderPrefix(settings: Settings, folderName: string): string {
    settings.masterFolderName + "/" + folderName + "/"
  }

  /** An upload the walker may issue in a run for `folderName`: into the
      configured container, under the run's folder, as an image. */
  predicate UnderFolder(settings: Settings, folderName: string, c: PutCall) {
    && c.container == settings.containerName
    && FolderPrefix(settings, folderName) <= c.key
    && "image/" <= c.contentType
  }

  /** A node's step issues at most one upload, and only one the run may issue. */
  lemma RewriteNodeUploads(settings: Settings, folderName: string, e: Element, guid: string,
                           decode: string -> Option<seq<byte>>, reply: PutCall -> Option<string>)
    ensures var r := RewriteNode(settings, folderName, e, guid, decode, reply);
      |r.puts| <= 1 && forall c :: c in r.puts ==> UnderFolder(settings, folderName, c)
  {
    var src := GetAttribute(e, "src", "");
    if IsImage(e) && Extract(src).Inline? {
      var format := Extract(src).format;
      SaveOutcomes(settings, folderName, format, Extract(src).payload, guid, decode, reply);
      var key := BlobKey(settings.masterFolderName, folderName, FileName(guid, format));
      assert key == FolderPrefix(settings, folderName) + FileName(guid, format);
      assert ContentType(format) == "image/" + format;
    }
  }

  /** One run uploads at most one blob per node, every one of them into the
      configured container under `<master>/<folder>/` with an image content
      type. */
  lemma UploadsUnderFolder(settings: Settings, folderName: string, nodes: seq<Element>, guidOf: nat -> string,
                           decode: string -> Option<seq<byte>>, reply: PutCall -> Option<string>)
    ensures var r := Walk(nodes, NodeStep(settings, folderName, guidOf, decode, reply));
      |r.puts| <= |nodes| && forall c :: c in r.puts ==> UnderFolder(settings, folderName, c)
  {
    var step := NodeStep(settings, folderName, guidOf, decode, reply);
    forall e: Element, i: nat
      ensures |step(e, i).puts| <= 1 && forall c :: c in step(e, i).puts ==> UnderFolder(settings, folderName, c)
    {
      RewriteNodeUploads(settings, folderName, e, guidOf(i), decode, reply);
    }
    WalkPutsBound(nodes, step);
    WalkPutsSatisfy(nodes, step, c => UnderFolder(settings, folderName, c));
  }

  /** Two folders free of '/' whose key prefixes both start one key are the
      same folder. */
  lemma FolderPrefixesExclusive(settings: Settings, folder1: string, folder2: string, key: string)
    requires '/' !in folder1 && '/' !in folder2
    ensures FolderPrefix(settings, folder1) <= key && FolderPrefix(settings, folder2) <= key ==> folder1 == folder2
  {
    var p1, p2 := FolderPrefix(settings, folder1), FolderPrefix(settings, folder2);
    if p1 <= key && p2 <= key {
      var master := settings.masterFolderName + "/";
      assert p1 == master + folder1 + ['/'] && p2 == master + folder2 + ['/'];
      SeparatedNamesEqual(key, master, '/', folder1, folder2);
    }
  }

  /** Two runs with different folder names free of '/' never write the same
      key, whatever their documents, GUIDs and backend answers: no run
      overwrites another run's image. */
  lemma RunsNeverShareAKey(settings: Settings, folder1: string, folder2: string,
                           nodes1: seq<Element>, nodes2: seq<Element>, guidOf1: nat -> string, guidOf2: nat -> string,
                           decode: string -> Option<seq<byte>>,
                           reply1: PutCall -> Option<string>, reply2: PutCall -> Option<string>)
    requires folder1 != folder2 && '/' !in folder1 && '/' !in folder2
    ensures var r1 := Walk(nodes1, NodeStep(settings, folder1, guidOf1, decode, reply1));
      var r2 := Walk(nodes2, NodeStep(settings, folder2, guidOf2, decode, reply2));
      forall c1, c2 :: c1 in r1.puts && c2 in r2.puts ==> c1.key != c2.key
  {
    UploadsUnderFolder(settings, folder1, nodes1, guidOf1, decode, reply1);
    UploadsUnderFolder(settings, folder2, nodes2, guidOf2, decode, reply2);
    forall c1: PutCall, c2: PutCall | UnderFolder(settings, folder1, c1) && UnderFolder(settings, folder2, c2)
      ensures c1.key != c2.key
    {
      FolderPrefixesExclusive(settings, folder1, folder2, c1.key);
    }
  }

  /** The upload a successful run issues for node `e` when `guid` is drawn for
      it: one for an `img` node whose `src` is an inline image with a payload
      that decodes, carrying the decoded bytes under the key and with the
      content type of its format; none for any other node. */
  function ExpectedPut(settings: Settings, folderName: string, e: Element, guid: string,
                       decode: string -> Option<seq<byte>>): seq<PutCall>
  {
    var src := GetAttribute(e, "src", "");
    if IsImage(e) && Extract(src).Inline? && decode(Extract(src).payload).Some? then
      var format := Extract(src).format;
      [PutCall(settings.containerName, BlobKey(settings.masterFolderName, folderName, FileName(guid, format)),
               decode(Extract(src).payload).value, ContentType(format))]
    else []
  }

  /** The uploads a successful run issues: one per inline image, in document
      order. */
  function ExpectedPuts(settings: Settings, folderName: string, nodes: seq<Element>, guidOf: nat -> string,
                        decode: string -> Option<seq<byte>>): seq<PutCall>
    decreases |nodes|
  {
    if |nodes| == 0 then []
    else
      var n := |nodes| - 1;
      ExpectedPuts(settings, folderName, nodes[..n], guidOf, decode)
        + ExpectedPut(settings, folderName, nodes[n], guidOf(n), decode)
  }

  /** A node whose step succeeds has issued exactly the upload it is expected
      to: its inline image, or nothing. */
  lemma RewriteNodeStores(settings: Settings, folderName: string, e: Element, guid: string,
                          decode: string -> Option<seq<byte>>, reply: PutCall -> Option<string>)
    ensures var r := RewriteNode(settings, folderName, e, guid, decode, reply);
      r.result.Ok? ==> r.puts == ExpectedPut(settings, folderName, e, guid, decode)
  {
    var src := GetAttribute(e, "src", "");
    if IsImage(e) {
      ExtractPaths(src);
      if Extract(src).Inline? {
        SaveOutcomes(settings, folderName, Extract(src).format, Extract(src).payload, guid, decode, reply);
      }
    }
  }

  /** A run that succeeds has stored every inline image of the document, once
      each, in document order, and issued no other upload. */
  lemma {:induction false} RunStoresInlineImages(settings: Settings, folderName: string, nodes: seq<Element>,
                                                 guidOf: nat -> string, decode: string -> Option<seq<byte>>,
                                                 reply: PutCall -> Option<string>)
    ensures var r := Walk(nodes, NodeStep(settings, folderName, guidOf, decode, reply));
      r.result.Ok? ==> r.puts == ExpectedPuts(settings, folderName, nodes, guidOf, decode)
    decreases |nodes|
  {
    var step := NodeStep(settings, folderName, guidOf, decode, reply);
    if |nodes| > 0 && Walk(nodes, step).result.Ok? {
      var n := |nodes| - 1;
      RunStoresInlineImages(settings, folderName, nodes[..n], guidOf, decode, reply);
      RewriteNodeStores(settings, folderName, nodes[n], guidOf(n), decode, reply);
      assert step(nodes[n], n) == RewriteNode(settings, folderName, nodes[n], guidOf(n), decode, reply);
    }
  }

  /** `key` names a blob the run for `folderName` stores for the node drawn
      `guid`: it starts with `<master>/<folder>/`, the GUID text without
      hyphens and '.'. */
  predicate NamedFor(settings: Settings, folderName: string, guid: string, key: string) {
    FolderPrefix(settings, folderName) + RemoveAll(guid, '-') + "." <= key
  }

  /** Every upload of a node's step is named for the GUID drawn for it. */
  lemma RewriteNodeNamedFor(settings: Settings, folderName: string, e: Element, guid: string,
                            decode: string -> Option<seq<byte>>, reply: PutCall -> Option<string>)
    ensures forall c :: c in RewriteNode(settings, folderName, e, guid, decode, reply).puts ==>
      NamedFor(settings, folderName, guid, c.key)
  {
    var src := GetAttribute(e, "src", "");
    if IsImage(e) && Extract(src).Inline? {
      var format := Extract(src).format;
      SaveOutcomes(settings, folderName, format, Extract(src).payload, guid, decode, reply);
      var key := BlobKey(settings.masterFolderName, folderName, FileName(guid, format));
      assert key == (FolderPrefix(settings, folderName) + RemoveAll(guid, '-') + ".") + format;
    }
  }

  /** One key is named for two GUIDs without '.' only when they agree once
      their hyphens are removed. */
  lemma NamedForExclusive(settings: Settings, folderName: string, guid1: string, guid2: string, key: string)
    requires '.' !in guid1 && '.' !in guid2
    ensures NamedFor(settings, folderName, guid1, key) && NamedFor(settings, folderName, guid2, key)
      ==> RemoveAll(guid1, '-') == RemoveAll(guid2, '-')
  {
    var stem1, stem2 := RemoveAll(guid1, '-'), RemoveAll(guid2, '-');
    var p := FolderPrefix(settings, folderName);
    if p + stem1 + ['.'] <= key && p + stem2 + ['.'] <= key {
      StemHasNoDot(guid1);
      StemHasNoDot(guid2);
      SeparatedNamesEqual(key, p, '.', stem1, stem2);
    }
  }

  /** Every upload of a walk was issued by the step of one of its nodes: a
      property each step's uploads have for its position holds, for some
      position, of every walk upload. */
  lemma {:induction false} WalkPutsOwned(nodes: seq<Element>, step: (Element, nat) -> Run<Element>,
                                         Q: (PutCall, nat) -> bool)
    requires forall e: Element, i: nat, c: PutCall :: c in step(e, i).puts ==> Q(c, i)
    ensures forall c :: c in Walk(nodes, step).puts ==> exists i :: 0 <= i < |nodes| && Q(c, i)
    decreases |nodes|
  {
    if |nodes| > 0 {
      var n := |nodes| - 1;
      WalkPutsOwned(nodes[..n], step, Q);
      forall c | c in step(nodes[n], n).puts
        ensures exists i :: 0 <= i < |nodes| && Q(c, i)
      {
        assert Q(c, n);
      }
    }
  }

  /** GUID texts drawn for the first `n` nodes that differ even with their
      hyphens removed. */
  predicate DistinctGuids(guidOf: nat -> string, n: nat) {
    forall i: nat, j: nat :: i < j < n ==> RemoveAll(guidOf(i), '-') != RemoveAll(guidOf(j), '-')
  }

  /** No two uploads of the sequence go to the same key. */
  predicate DistinctKeys(puts: seq<PutCall>) {
    forall a, b :: 0 <= a < b < |puts| ==> puts[a].key != puts[b].key
  }

  /** Uploads to distinct keys followed by at most one upload to a key none of
      them used are uploads to distinct keys. */
  lemma AppendDistinctKeys(puts: seq<PutCall>, more: seq<PutCall>)
    requires DistinctKeys(puts) && |more| <= 1
    requires forall a, b :: 0 <= a < |puts| && 0 <= b < |more| ==> puts[a].key != more[b].key
    ensures DistinctKeys(puts + more)
  {
    var all := puts + more;
    forall a, b | 0 <= a < b < |all|
      ensures all[a].key != all[b].key
    {
      assert all[a] == puts[a];
      assert b < |puts| ==> all[b] == puts[b];
      assert |puts| <= b ==> all[b] == more[b - |puts|];
    }
  }

  /** Every upload of a run is named for the GUID drawn for one of its nodes. */
  lemma WalkKeysNamed(settings: Settings, folderName: string, nodes: seq<Element>,
                      guidOf: nat -> string, decode: string -> Option<seq<byte>>, reply: PutCall -> Option<string>)
    ensures forall c :: c in Walk(nodes, NodeStep(settings, folderName, guidOf, decode, reply)).puts ==>
      exists i :: 0 <= i < |nodes| && NamedFor(settings, folderName, guidOf(i), c.key)
  {
    var step := NodeStep(settings, folderName, guidOf, decode, reply);
    forall e: Element, i: nat
      ensures forall c :: c in step(e, i).puts ==> NamedFor(settings, folderName, guidOf(i), c.key)
    {
      RewriteNodeNamedFor(settings, folderName, e, guidOf(i), decode, reply);
    }
    WalkPutsOwned(nodes, step, (c: PutCall, i: nat) => NamedFor(settings, folderName, guidOf(i), c.key));
  }

  /** A key named for the GUID of node `n` differs from every key named for
      the GUID of an earlier node, when those GUIDs hold no '.' and differ
      without their hyphens. */
  lemma FreshKey(settings: Settings, folderName: string, guidOf: nat -> string, n: nat, earlier: string, key: string)
    requires forall i :: 0 <= i <= n ==> '.' !in guidOf(i)
    requires DistinctGuids(guidOf, n + 1)
    requires exists i :: 0 <= i < n && NamedFor(settings, folderName, guidOf(i), earlier)
    requires NamedFor(settings, folderName, guidOf(n), key)
    ensures earlier != key
  {
    var i :| 0 <= i < n && NamedFor(settings, folderName, guidOf(i), earlier);
    NamedForExclusive(settings, folderName, guidOf(i), guidOf(n), earlier);
  }

  /** No two images of one run share a key: when the GUIDs drawn in the run
      hold no '.' and stay distinct once their hyphens are removed, the
      uploads of the run, failed or not, go to pairwise distinct keys. */
  lemma {:induction false} RunKeysDistinct(settings: Settings, folderName: string, nodes: seq<Element>,
                                           guidOf: nat -> string, decode: string -> Option<seq<byte>>,
                                           reply: PutCall -> Option<string>)
    requires forall i :: 0 <= i < |nodes| ==> '.' !in guidOf(i)
    requires DistinctGuids(guidOf, |nodes|)
    ensures DistinctKeys(Walk(nodes, NodeStep(settings, folderName, guidOf, decode, reply)).puts)
    decreases |nodes|
  {
    if |nodes| > 0 {
      var step := NodeStep(settings, folderName, guidOf, decode, reply);
      var n := |nodes| - 1;
      RunKeysDistinct(settings, folderName, nodes[..n], guidOf, decode, reply);
      var done := Walk(nodes[..n], step);
      if done.result.Ok? {
        var last := step(nodes[n], n);
        assert last == RewriteNode(settings, folderName, nodes[n], guidOf(n), decode, reply);
        RewriteNodeUploads(settings, folderName, nodes[n], guidOf(n), decode, reply);
        RewriteNodeNamedFor(settings, folderName, nodes[n], guidOf(n), decode, reply);
        WalkKeysNamed(settings, folderName, nodes[..n], guidOf, decode, reply);
        forall a, b | 0 <= a < |done.puts| && 0 <= b < |last.puts|
          ensures done.puts[a].key != last.puts[b].key
        {
          assert done.puts[a] in done.puts && last.puts[b] in last.puts;
          FreshKey(settings, folderName, guidOf, n, done.puts[a].key, last.puts[b].key);
        }
        AppendDistinctKeys(done.puts, last.puts);
      }
    }
  }

  /** A rewrite that succeeds changes each node as the walker's step does:
      every `img` node has only its `src` changed, to the extractor's answer
      for that node, and every other node is left as it was. */
  lemma RewrittenNodeByNode(settings: Settings, folderName: string, nodes: seq<Element>, guidOf: nat -> string,
                            decode: string -> Option<seq<byte>>, reply: PutCall -> Option<string>)
    ensures var r := Walk(nodes, NodeStep(settings, folderName, guidOf, decode, reply));
      r.result.Ok? ==> forall i :: 0 <= i < |nodes| ==>
        Rewritten(settings, folderName, nodes[i], guidOf(i), decode, reply, r.result.value[i])
  {
    var step := NodeStep(settings, folderName, guidOf, decode, reply);
    WalkNodeByNode(nodes, step);
    forall i | 0 <= i < |nodes|
      ensures var r := RewriteNode(settings, folderName, nodes[i], guidOf(i), decode, reply);
        r.result.Ok? ==> Rewritten(settings, folderName, nodes[i], guidOf(i), decode, reply, r.result.value)
    {
      RewriteNodeMeaning(settings, folderName, nodes[i], guidOf(i), decode, reply);
    }
  }

  /** A document none of whose `img` elements carries an inline image is left as
      it is, up to an absent `src` being written as "", and nothing is uploaded. */
  lemma NoInlineImageNoUpload(settings: Settings, folderName: string, nodes: seq<Element>, guidOf: nat -> string,
                              decode: string -> Option<seq<byte>>, reply: PutCall -> Option<string>)
    requires forall i :: 0 <= i < |nodes| && IsImage(nodes[i]) ==>
      !StartsWithIgnoreCase(GetAttribute(nodes[i], "src", ""), ImagePrefix)
    ensures var r := Walk(nodes, NodeStep(settings, folderName, guidOf, decode, reply));
      && r.puts == []
      && r.result.Ok?
      && forall i :: 0 <= i < |nodes| ==>
           r.result.value[i] == if IsImage(nodes[i]) then SetAttribute(nodes[i], "src", GetAttribute(nodes[i], "src", ""))
                                else nodes[i]
  {
    var step := NodeStep(settings, folderName, guidOf, decode, reply);
    forall i | 0 <= i < |nodes|
      ensures step(nodes[i], i) == Run(Ok(if IsImage(nodes[i]) then SetAttribute(nodes[i], "src", GetAttribute(nodes[i], "src", ""))
                                          else nodes[i]), [])
    {
      ResolveSrcPaths(settings, folderName, GetAttribute(nodes[i], "src", ""), guidOf(i), decode, reply);
    }
    WalkWithoutUploads(nodes, step);
    WalkNodeByNode(nodes, step);
  }

  /** In particular, when every `img` element carries a `src` that is not an
      inline image, the document comes out unchanged. */
  lemma ReferencedDocumentUnchanged(settings: Settings, folderName: string, nodes: seq<Element>, guidOf: nat -> string,
                                    decode: string -> Option<seq<byte>>, reply: PutCall -> Option<string>)
    requires forall i :: 0 <= i < |nodes| && IsImage(nodes[i]) ==>
      "src" in nodes[i].attributes && !StartsWithIgnoreCase(nodes[i].attributes["src"], ImagePrefix)
    ensures Walk(nodes, NodeStep(settings, folderName, guidOf, decode, reply)) == Run(Ok(nodes), [])
  {
    var r := Walk(nodes, NodeStep(settings, folderName, guidOf, decode, reply));
    forall i | 0 <= i < |nodes| && IsImage(nodes[i])
      ensures !StartsWithIgnoreCase(GetAttribute(nodes[i], "src", ""), ImagePrefix)
    {
    }
    NoInlineImageNoUpload(settings, folderName, nodes, guidOf, decode, reply);
    forall i | 0 <= i < |nodes|
      ensures r.result.value[i] == nodes[i]
    {
      if IsImage(nodes[i]) {
        SrcRewrittenAsItWas(nodes[i]);
      }
    }
    assert r.result.value == nodes;
  }

  /** Writing an element's `src` back as it reads leaves the element as it was. */
  lemma SrcRewrittenAsItWas(e: Element)
    requires "src" in e.attributes
    ensures SetAttribute(e, "src", GetAttribute(e, "src", "")) == e
  {
    assert e.attributes["src" := e.attributes["src"]] == e.attributes;
  }

  /** An inline value with no ',' hands the whole value to the decoder; that
      text holds the ':' of `data:`, so a decoder that refuses foreign
      characters fails and no upload is issued. */
  lemma NoCommaNeverUploads(settings: Settings, folderName: string, src: string, guid: string,
                            decode: string -> Option<seq<byte>>, reply: PutCall -> Option<string>)
    requires RejectsForeignText(decode)
    requires Extract(src).Inline? && ',' !in src
    ensures var r := ResolveSrc(settings, folderName, src, guid, decode, reply);
      r.puts == [] && r.result.Err?
  {
    ExtractPaths(src);
    ExtractPayload(src);
    FoldFixedAt(src, ImagePrefix, 4, ':');
    assert !IsBase64TextChar(src[4]);
    assert decode(src).None?;
    SaveOutcomes(settings, folderName, Extract(src).format, src, guid, decode, reply);
  }

  /** ProcessImageAsync on node `i` of the document: an inline `src` is saved
      and the node's `src` set to the URL the backend answered; the node's
      `src` (read with default "") is returned. */
  method ProcessImage(doc: array<Element>, i: nat, store: BlobService, settings: Settings, folderName: string,
                      guid: string, decode: string -> Option<seq<byte>>)
    returns (r: Result<string>)
    requires i < doc.Length
    modifies doc, store
    ensures var src := GetAttribute(old(doc[i]), "src", "");
      var run := ResolveSrc(settings, folderName, src, guid, decode, store.reply);
      && r == run.result
      && store.log == old(store.log) + run.puts
      && doc[..] == if r.Ok? && Extract(src).Inline? then old(doc[..])[i := SetAttribute(old(doc[i]), "src", r.value)]
                    else old(doc[..])
  {
    var attributeValue := GetAttribute(doc[i], "src", "");
    if StartsWithIgnoreCase(attributeValue, ImagePrefix) {
      var slices := Extract(attributeValue);
      if slices.Malformed? {
        return Err(MalformedDataUri);
      }
      var saved := SaveImage(store, settings, folderName, slices.format, slices.payload, guid, decode);
      if saved.Err? {
        return saved;
      }
      doc[i] := SetAttribute(doc[i], "src", saved.value);
    }
    r := Ok(GetAttribute(doc[i], "src", ""));
  }

  /** The body of ProcessHtmlInput's loop for node `i`: an `img` node gets its
      `src` set to ProcessImage's answer; the node as it then stands is
      returned. */
  method ProcessNode(doc: array<Element>, i: nat, store: BlobService, settings: Settings, folderName: string,
                     guid: string, decode: string -> Option<seq<byte>>)
    returns (r: Result<Element>)
    requires i < doc.Length
    modifies doc, store
    ensures var step := RewriteNode(settings, folderName, old(doc[i]), guid, decode, store.reply);
      && r == step.result
      && store.log == old(store.log) + step.puts
      && (r.Ok? ==> doc[..] == old(doc[..])[i := r.value])
      && (r.Err? ==> doc[..] == old(doc[..]))
  {
    if IsImage(doc[i]) {
      ghost var before := doc[i];
      var src := ProcessImage(doc, i, store, settings, folderName, guid, decode);
      if src.Err? {
        return Err(src.failure);
      }
      doc[i] := SetAttribute(doc[i], "src", src.value);
      assert doc[i] == SetAttribute(before, "src", src.value);
    }
    r := Ok(doc[i]);
  }

  /** One pass of ProcessHtmlInput's loop, stated against the walk: when the
      first `i` nodes have been rewritten as the walk over them says and the
      log holds its uploads, node `i` is processed and either the same holds
      for the first `i + 1` nodes, or node `i` failed and the walk over the
      whole document fails with its failure, the log holding its uploads. */
  method VisitNode(doc: array<Element>, i: nat, store: BlobService, settings: Settings, folderName: string,
                   guidOf: nat -> string, decode: string -> Option<seq<byte>>,
                   ghost nodes: seq<Element>, ghost step: (Element, nat) -> Run<Element>, ghost log0: seq<PutCall>)
    returns (r: Result<Element>)
    requires step == NodeStep(settings, folderName, guidOf, decode, store.reply)
    requires i < doc.Length == |nodes| && doc[i..] == nodes[i..]
    requires Walk(nodes[..i], step).result == Ok(doc[..i])
    requires store.log == log0 + Walk(nodes[..i], step).puts
    modifies doc, store
    ensures r.Ok? ==> && doc[i + 1..] == nodes[i + 1..]
                      && Walk(nodes[..i + 1], step).result == Ok(doc[..i + 1])
                      && store.log == log0 + Walk(nodes[..i + 1], step).puts
    ensures r.Err? ==> Walk(nodes, step).result == Err(r.failure) && store.log == log0 + Walk(nodes, step).puts
  {
    ghost var before := doc[..];
    ghost var run := RewriteNode(settings, folderName, nodes[i], guidOf(i), decode, store.reply);
    assert step(nodes[i], i) == run;
    assert doc[i] == nodes[i];
    r := ProcessNode(doc, i, store, settings, folderName, guidOf(i), decode);
    if r.Err? {
      StepFails(nodes, step, i, log0, store.log);
    } else {
      StepSucceeds(nodes, step, i, before, r.value, log0, store.log);
    }
  }

  /** ProcessHtmlInput: every `img` node, in document order, has its `src` set
      to what ProcessImage answers for it; the first failure propagates and no
      document is produced. On success the rewritten nodes are returned (the
      document the serialiser would write out). */
  method ProcessHtmlInput(doc: array<Element>, store: BlobService, settings: Settings, folderName: string,
                          guidOf: nat -> string, decode: string -> Option<seq<byte>>)
    returns (r: Result<seq<Element>>)
    modifies doc, store
    ensures var run := Walk(old(doc[..]), NodeStep(settings, folderName, guidOf, decode, store.reply));
      r == run.result && store.log == old(store.log) + run.puts
    ensures r.Ok? ==> doc[..] == r.value
  {
    ghost var nodes := doc[..];
    ghost var log0 := store.log;
    ghost var step := NodeStep(settings, folderName, guidOf, decode, store.reply);
    var i := 0;
    while i < doc.Length
      invariant i <= doc.Length == |nodes| && doc[i..] == nodes[i..]
      invariant Walk(nodes[..i], step).result == Ok(doc[..i])
      invariant store.log == log0 + Walk(nodes[..i], step).puts
    {
      var outcome := VisitNode(doc, i, store, settings, folderName, guidOf, decode, nodes, step, log0);
      if outcome.Err? {
        return Err(outcome.failure);
      }
      i := i + 1;
    }
    assert nodes[..i] == nodes && doc[..i] == doc[..];
    r := Ok(doc[..]);
  }
}
