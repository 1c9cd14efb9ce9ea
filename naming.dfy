/** The persister's name derivation (src/StringImageBinaryToStream/Program.cs:95,
    110-111): the blob's file name, its key inside the container and the content
    type it is uploaded with. */
module Naming {
  import opened Text
  import opened DataUri

  /** The file name of line 95: the GUID text with every '-' removed, then '.'
      and the format. */
  function FileName(guid: string, format: string): string {
    RemoveAll(guid, '-') + "." + format
  }

  /** The file name ends with '.' and the format, and in front of that holds
      the GUID's characters except its hyphens. */
  lemma FileNameShape(guid: string, format: string)
    ensures var r := FileName(guid, format);
      && |r| > |format|
      && r[|r| - |format| - 1..] == "." + format
      && '-' !in r[..|r| - |format| - 1]
      && multiset(r[..|r| - |format| - 1]) == multiset(guid)['-' := 0]
  {
    var stem, r := RemoveAll(guid, '-'), FileName(guid, format);
    RemoveAllCounts(guid, '-');
    assert r == stem + ("." + format) && |r| == |stem| + 1 + |format|;
    assert r[..|r| - |format| - 1] == stem;
    assert r[|r| - |format| - 1..] == "." + format;
  }

  /** A GUID written without hyphens is kept as it is in front of the extension. */
  lemma FileNameOfPlainGuid(guid: string, format: string)
    requires '-' !in guid
    ensures FileName(guid, format) == guid + "." + format
  {
    RemoveAllAbsent(guid, '-');
  }

  /** For GUID texts without '.', the file name determines the GUID text
      without its hyphens and the format: distinct GUIDs give distinct file
      names. */
  lemma FileNameInjective(guid1: string, format1: string, guid2: string, format2: string)
    requires '.' !in guid1 && '.' !in guid2
    ensures FileName(guid1, format1) == FileName(guid2, format2)
        <==> RemoveAll(guid1, '-') == RemoveAll(guid2, '-') && format1 == format2
  {
    StemHasNoDot(guid1);
    StemHasNoDot(guid2);
    DotJoinInjective(RemoveAll(guid1, '-'), format1, RemoveAll(guid2, '-'), format2);
  }

  /** Joining a name without '.' to a suffix with '.' can be undone. */
  lemma DotJoinInjective(stem1: string, format1: string, stem2: string, format2: string)
    requires '.' !in stem1 && '.' !in stem2
    ensures stem1 + "." + format1 == stem2 + "." + format2 <==> stem1 == stem2 && format1 == format2
  {
    var n1, n2 := stem1 + "." + format1, stem2 + "." + format2;
    var head1, head2 := stem1 + ['.'], stem2 + ['.'];
    assert n1 == head1 + format1 && n2 == head2 + format2;
    if n1 == n2 {
      assert stem1 == stem2 by {
        assert [] + stem1 + ['.'] == head1 && [] + stem2 + ['.'] == head2;
        SeparatedNamesEqual(n1, [], '.', stem1, stem2);
      }
      assert format1 == n1[|head1|..] == n2[|head2|..] == format2;
    }
  }

  /** Removing the hyphens of a GUID text without '.' leaves no '.'. */
  lemma StemHasNoDot(guid: string)
    requires '.' !in guid
    ensures '.' !in RemoveAll(guid, '-')
  {
    RemoveAllCounts(guid, '-');
    assert multiset(RemoveAll(guid, '-'))['.'] == multiset(guid)['.'] == 0;
  }

  /** The blob key of line 110: `<master>/<folder>/<file name>`. */
  function BlobKey(master: string, folder: string, fileName: string): string {
    master + "/" + folder + "/" + fileName
  }

  /** The content type of line 111: `image/<format>`. */
  function ContentType(format: string): string {
    "image/" + format
  }

  /** Within one master folder, a key determines its folder and its file name
      as long as folder names hold no '/': images of two runs with different
      grouping folders never share a key, and within a run distinct file names
      give distinct keys. */
  lemma BlobKeyInjective(master: string, folder1: string, name1: string, folder2: string, name2: string)
    requires '/' !in folder1 && '/' !in folder2
    ensures BlobKey(master, folder1, name1) == BlobKey(master, folder2, name2)
        <==> folder1 == folder2 && name1 == name2
  {
    var k1, k2 := BlobKey(master, folder1, name1), BlobKey(master, folder2, name2);
    if k1 == k2 {
      var m := |master| + 1;
      var t1, t2 := k1[m..], k2[m..];
      assert t1 == folder1 + "/" + name1;
      assert t2 == folder2 + "/" + name2;
      assert |folder1| == |folder2| by {
        assert t1[|folder1|] == '/' && t2[|folder2|] == '/';
      }
      assert folder1 == t1[..|folder1|] == t2[..|folder2|] == folder2;
      assert name1 == t1[|folder1| + 1..] == t2[|folder2| + 1..] == name2;
    }
  }

  /** The content type repeats the media type written in the data URI: the text
      from index 5 of the source value up to the ';' is `image/<format>` up to
      case. */
  lemma ContentTypeEchoesMediaType(src: string)
    requires Extract(src).Inline?
    ensures var format := Extract(src).format;
      EqualsIgnoreCase(ContentType(format), src[5..|ImagePrefix| + |format|])
  {
    ExtractPaths(src);
    ExtractFormat(src);
    var format := Extract(src).format;
    var media := src[5..|ImagePrefix| + |format|];
    var ct := ContentType(format);
    forall i | 0 <= i < |ct|
      ensures Fold(ct[i]) == Fold(media[i])
    {
      if i < 6 {
        assert ct[i] == ImagePrefix[5 + i];
        assert media[i] == src[5 + i];
        assert Fold(src[5 + i]) == Fold(ImagePrefix[5 + i]);
      } else {
        assert ct[i] == format[i - 6];
        assert media[i] == src[|ImagePrefix|..|ImagePrefix| + |format|][i - 6];
      }
    }
  }
}
