/** The image persister (SaveImageAsync, src/StringImageBinaryToStream/Program.cs:92-129)
    and the storage backend it writes to. The backend is an oracle: what it
    answers to an upload is fixed by the `reply` function it is built with, and
    a ghost log records every upload issued to it, in order. */
module Storage {
  import opened Text
  import opened Naming

  newtype byte = x: int | 0 <= x < 256

  datatype Option<T> = None | Some(value: T)

  /** The configuration the persister reads. `accountParses` stands for what the
      storage client's parser answers for the configured connection string
      (line 97); the other two are the container and master folder names. */
  datatype Settings = Settings(accountParses: bool, containerName: string, masterFolderName: string)

  /** One upload issued to the backend: container, blob key, content and
      content type. */
  datatype PutCall = PutCall(container: string, key: string, bytes: seq<byte>, contentType: string)

  /** What lies behind a wrapped save failure (the inner exception of line 121). */
  datatype Cause = InvalidBase64 | UploadRejected

  /** The exceptions a run of the rewrite can end with. */
  datatype Failure =
    | MalformedDataUri        // inline source without ';' (the range of line 76 throws)
    | ConnectionFailed        // line 127: the connection string does not parse
    | SaveFailed(cause: Cause) // line 121: decoding or uploading failed, wrapped

  datatype Result<T> = Ok(value: T) | Err(failure: Failure)

  /** An outcome together with the uploads issued while producing it. */
  datatype Run<T> = Run(result: Result<T>, puts: seq<PutCall>)

  /** Characters a base64 text may hold for the platform decoder: the alphabet
      of section 4 of RFC 4648, the pad character and the white space the
      decoder skips. */
  predicate IsBase64TextChar(c: char) {
    || 'A' <= c <= 'Z' || 'a' <= c <= 'z' || '0' <= c <= '9'
    || c == '+' || c == '/' || c == '='
    || c == ' ' || c == '\t' || c == '\r' || c == '\n'
  }

  /** A decoder that refuses any text holding a character outside that set. */
  ghost predicate RejectsForeignText(decode: string -> Option<seq<byte>>) {
    forall s: string, i: int :: 0 <= i < |s| && !IsBase64TextChar(s[i]) ==> decode(s).None?
  }

  /** What one call of SaveImageAsync does: name the blob (line 95), check the
      connection string (97, 127), decode the payload (105), upload under the
      derived key with the derived content type (110-112) and answer the
      backend's URL (113-116); failures inside the try block are wrapped (121). */
  function Save(settings: Settings, folderName: string, format: string, image: string, guid: string,
                decode: string -> Option<seq<byte>>, reply: PutCall -> Option<string>): (r: Run<string>)
    ensures |r.puts| <= 1
  {
    var fileName := FileName(guid, format);
    if !settings.accountParses then Run(Err(ConnectionFailed), [])
    else
      match decode(image)
      case None => Run(Err(SaveFailed(InvalidBase64)), [])
      case Some(bytes) =>
        var call := PutCall(settings.containerName,
                            BlobKey(settings.masterFolderName, folderName, fileName),
                            bytes, ContentType(format));
        match reply(call)
        case None => Run(Err(SaveFailed(UploadRejected)), [call])
        case Some(url) => Run(Ok(url), [call])
  }

  /** The persister's outcomes: an upload is issued only once the connection
      string has parsed and the payload has decoded, and it carries the decoded
      bytes under the container, the key `master/folder/file` and the content
      type `image/<format>`; once the connection string has parsed and the
      payload has decoded, exactly that one upload is issued, and the save
      answers the backend's URL, or the wrapped upload failure when the backend
      rejects it; the save succeeds exactly when the backend answers the
      upload; it fails with the connection error exactly when the connection
      string does not parse, and with a wrapped decoding error exactly when it
      parses and the payload does not decode. */
  lemma SaveOutcomes(settings: Settings, folderName: string, format: string, image: string, guid: string,
                     decode: string -> Option<seq<byte>>, reply: PutCall -> Option<string>)
    ensures var r := Save(settings, folderName, format, image, guid, decode, reply);
      && (r.puts != [] ==>
            && settings.accountParses && decode(image) == Some(r.puts[0].bytes)
            && r.puts[0].container == settings.containerName
            && r.puts[0].key == BlobKey(settings.masterFolderName, folderName, FileName(guid, format))
            && r.puts[0].contentType == ContentType(format))
      && (settings.accountParses && decode(image).Some? ==>
            && |r.puts| == 1 && r.puts[0].bytes == decode(image).value
            && r.result == (if reply(r.puts[0]).Some? then Ok(reply(r.puts[0]).value)
                            else Err(SaveFailed(UploadRejected))))
      && (r.result.Ok? <==> r.puts != [] && reply(r.puts[0]).Some?)
      && (r.result.Ok? ==> reply(r.puts[0]) == Some(r.result.value))
      && (r.result == Err(ConnectionFailed) <==> !settings.accountParses)
      && (r.result == Err(SaveFailed(InvalidBase64)) <==> settings.accountParses && decode(image).None?)
  {
  }

  /** The storage backend as an oracle with a log of the uploads issued to it. */
  class BlobService {
    const reply: PutCall -> Option<string>
    ghost var log: seq<PutCall>

    constructor (reply: PutCall -> Option<string>)
      ensures this.reply == reply && log == []
    {
      this.reply := reply;
      log := [];
    }

    /** One upload: it is logged whether or not the backend accepts it; the
        answer is the blob's URL, or nothing when the upload fails. */
    method Put(call: PutCall) returns (url: Option<string>)
      modifies this
      ensures log == old(log) + [call]
      ensures url == reply(call)
    {
      url := reply(call);
      log := log + [call];
    }
  }

  /** SaveImageAsync with its side effects in order: at most one upload, issued
      only after the connection string parsed and the payload decoded. */
  method SaveImage(store: BlobService, settings: Settings, folderName: string, fileExtension: string,
                   image: string, guid: string, decode: string -> Option<seq<byte>>)
    returns (r: Result<string>)
    modifies store
    ensures var run := Save(settings, folderName, fileExtension, image, guid, decode, store.reply);
      r == run.result && store.log == old(store.log) + run.puts
  {
    var imageFileName := FileName(guid, fileExtension);
    if !settings.accountParses {
      return Err(ConnectionFailed);
    }
    var bytes := decode(image);
    if bytes.None? {
      return Err(SaveFailed(InvalidBase64));
    }
    var key := BlobKey(settings.masterFolderName, folderName, imageFileName);
    var blobUri := store.Put(PutCall(settings.containerName, key, bytes.value, ContentType(fileExtension)));
    if blobUri.None? {
      return Err(SaveFailed(UploadRejected));
    }
    r := Ok(blobUri.value);
  }
}
