/** The image extractor's reading of an `<img>` source value: the
    case-insensitive `data:image/` test and the slicing of the format and the
    payload (src/StringImageBinaryToStream/Program.cs:73-77). The inline form is
    the image subset of the `data:` URL syntax of section 3 of RFC 2397,
    `data:image/<format>;<marker>,<payload>`. */
module DataUri {
  import opened Text

  /** The prefix that marks an inline image; eleven characters long, which is
      the fixed start index of the format slice. */
  const ImagePrefix: string := "data:image/"

  /** What the extractor makes of a source value. */
  datatype Extraction =
    | Referenced                              // no inline prefix: the value is kept
    | Malformed                               // prefix but no ';': the range 11..-1 throws
    | Inline(format: string, payload: string) // the two slices handed to the persister

  /** Neither delimiter can occur inside a case-insensitive match of the prefix. */
  lemma DelimiterNotInPrefix(src: string, c: char)
    requires StartsWithIgnoreCase(src, ImagePrefix)
    requires c == ';' || c == ','
    ensures forall j :: 0 <= j < |ImagePrefix| ==> src[j] != c
  {
    forall j | 0 <= j < |ImagePrefix|
      ensures src[j] != c
    {
      FoldFixedAt(src, ImagePrefix, j, c);
    }
  }

  /** The slicing of lines 73-77. The format is the range from index 11 to the
      first ';', which throws when that index lies before 11 (in particular
      when it is -1); the payload is everything after the first ',', and with
      no ',' the index -1 plus one selects the whole value. */
  function Extract(src: string): Extraction {
    if !StartsWithIgnoreCase(src, ImagePrefix) then Referenced
    else
      var semi := IndexOf(src, ';');
      if semi < |ImagePrefix| then Malformed
      else Inline(src[|ImagePrefix|..semi], src[IndexOf(src, ',') + 1..])
  }

  /** The extractor's three paths: a value without the inline prefix (compared
      without regard to case) is kept; an inline value fails exactly when it
      holds no ';'; every other value is inline. */
  lemma ExtractPaths(src: string)
    ensures Extract(src).Referenced? <==> !StartsWithIgnoreCase(src, ImagePrefix)
    ensures Extract(src).Malformed? <==> StartsWithIgnoreCase(src, ImagePrefix) && ';' !in src
  {
    if StartsWithIgnoreCase(src, ImagePrefix) {
      DelimiterNotInPrefix(src, ';');
    }
  }

  /** The format of an inline value is the text between the prefix and the
      first ';', so it never holds a ';'. */
  lemma ExtractFormat(src: string)
    requires Extract(src).Inline?
    ensures var format := Extract(src).format;
      var semi := |ImagePrefix| + |format|;
      && semi < |src| && src[semi] == ';' && ';' !in src[..semi]
      && src[|ImagePrefix|..semi] == format && ';' !in format
  {
    var semi := IndexOf(src, ';');
    var format := Extract(src).format;
    assert format == src[|ImagePrefix|..semi];
    forall j | 0 <= j < |format|
      ensures format[j] != ';'
    {
      assert format[j] == src[..semi][|ImagePrefix| + j];
    }
  }

  /** The payload of an inline value is the text after the first ',', which
      lies past the prefix, or the whole value when it holds no ','. */
  lemma ExtractPayload(src: string)
    requires Extract(src).Inline?
    ensures var payload := Extract(src).payload;
      && (',' !in src ==> payload == src)
      && (',' in src ==>
            var comma := |src| - |payload| - 1;
            && |ImagePrefix| <= comma && src[comma] == ',' && ',' !in src[..comma]
            && src[comma + 1..] == payload)
  {
    DelimiterNotInPrefix(src, ',');
  }

  /** Round trip: a value built as `<prefix><format>;<marker>,<payload>`, whose
      prefix matches `data:image/` up to case and whose format and marker hold
      no delimiter the slicing looks for, is read back as exactly that format and
      that payload. */
  lemma {:induction false} InlineRoundTrip(prefix: string, format: string, marker: string, payload: string)
    requires |prefix| == |ImagePrefix| && StartsWithIgnoreCase(prefix, ImagePrefix)
    requires ';' !in format && ',' !in format && ',' !in marker
    ensures Extract(prefix + format + ";" + marker + "," + payload) == Inline(format, payload)
  {
    var src := prefix + format + ";" + marker + "," + payload;
    var n := |ImagePrefix|;
    var semi, comma := n + |format|, n + |format| + 1 + |marker|;
    assert forall j :: 0 <= j < n ==> src[j] == prefix[j];
    assert StartsWithIgnoreCase(src, ImagePrefix);
    DelimiterNotInPrefix(prefix, ';');
    DelimiterNotInPrefix(prefix, ',');
    assert src[..semi] == prefix + format;
    IndexOfFirst(src, ';', semi);
    assert src[..comma] == prefix + format + ";" + marker;
    IndexOfFirst(src, ',', comma);
    assert src[n..semi] == format;
    assert src[comma + 1..] == payload;
  }

  /** An empty format is accepted: the range of line 76 is empty, not out of
      bounds, so `data:image/;base64,` is inline with empty format and empty
      payload. */
  lemma EmptyFormatAccepted()
    ensures Extract("data:image/;base64,") == Inline("", "")
  {
    InlineRoundTrip(ImagePrefix, "", "base64", "");
    assert ImagePrefix + "" + ";" + "base64" + "," + "" == "data:image/;base64,";
  }

  /** A value with the inline prefix and neither delimiter fails. */
  lemma NoDelimitersMalformed()
    ensures Extract("data:image/pngbase64nodata") == Malformed
  {
    var src, rest := "data:image/pngbase64nodata", "pngbase64nodata";
    assert src == ImagePrefix + rest;
    assert forall j :: 0 <= j < |ImagePrefix| ==> src[j] == ImagePrefix[j];
    assert ';' !in ImagePrefix && ';' !in rest;
    ExtractPaths(src);
  }
}
