/** Which directory entries tag_images.py treats as images: `is_image`
    (tag_images.py:28-29) and the filter of `iter_images`
    (tag_images.py:123-130), both a case-insensitive membership test of the
    file suffix in IMAGE_EXTS. Suffixes are taken as already extracted. */
module Images {
  import opened Text

  /** IMAGE_EXTS: the seven accepted suffixes, lower case, with their dot. */
  const ImageExts: set<string> := {".jpg", ".jpeg", ".png", ".webp", ".bmp", ".tif", ".tiff"}

  /** `p.suffix.lower() in IMAGE_EXTS`. */
  predicate IsImageSuffix(suffix: string) {
    Lower(suffix) in ImageExts
  }

  /** `is_image(p)`: a regular file whose suffix is an image suffix. */
  predicate IsImage(isFile: bool, suffix: string) {
    isFile && IsImageSuffix(suffix)
  }

  /** The two strings differ at most in the case of ASCII letters: at each
      position the characters are equal, or one is a small letter and the
      other its capital. */
  predicate SameIgnoringCase(s: string, t: string) {
    && |s| == |t|
    && forall i :: 0 <= i < |s| ==>
      || s[i] == t[i]
      || ('a' <= s[i] <= 'z' && t[i] as int == s[i] as int - 32)
      || ('a' <= t[i] <= 'z' && s[i] as int == t[i] as int - 32)
  }

  /** An extension that is already in lower case is left alone by `lower()`. */
  lemma ExtsAreLower()
    ensures forall e :: e in ImageExts ==> Lower(e) == e
  {
    forall e | e in ImageExts
      ensures Lower(e) == e
    {
      assert forall i :: 0 <= i < |e| ==> !('A' <= e[i] <= 'Z');
    }
  }

  /** No extension holds a capital or a "k", so neither a capital nor the
      Kelvin sign in a suffix can be lowered onto an extension by chance. */
  lemma ExtsHaveSmallLettersOnly()
    ensures forall e, i :: e in ImageExts && 0 <= i < |e| ==>
      e[i] == '.' || ('a' <= e[i] <= 'z' && e[i] != 'k')
  {
  }

  /** Strings that differ only in the case of their letters lower alike. */
  lemma {:induction false} SameIgnoringCaseLower(s: string, t: string)
    requires SameIgnoringCase(s, t)
    ensures Lower(s) == Lower(t)
  {
    forall i | 0 <= i < |s|
      ensures Lower(s)[i] == Lower(t)[i]
    {
      assert Lower(s)[i] == LowerChar(s[i]) && Lower(t)[i] == LowerChar(t[i]);
    }
  }

  /** A suffix is an image suffix exactly when it equals one of IMAGE_EXTS up
      to the case of its letters. */
  lemma IsImageSuffixIff(suffix: string)
    ensures IsImageSuffix(suffix) <==> exists e :: e in ImageExts && SameIgnoringCase(suffix, e)
  {
    ExtsAreLower();
    ExtsHaveSmallLettersOnly();
    if e :| e in ImageExts && SameIgnoringCase(suffix, e) {
      SameIgnoringCaseLower(suffix, e);
      assert Lower(suffix) == e;
    }
    if IsImageSuffix(suffix) {
      var e := Lower(suffix);
      forall i | 0 <= i < |suffix|
        ensures || suffix[i] == e[i]
                || ('a' <= suffix[i] <= 'z' && e[i] as int == suffix[i] as int - 32)
                || ('a' <= e[i] <= 'z' && suffix[i] as int == e[i] as int - 32)
      {
        assert e[i] == LowerChar(suffix[i]);
        assert e[i] == '.' || ('a' <= e[i] <= 'z' && e[i] != 'k');
      }
    }
  }

  /** The answer does not depend on the case of the suffix's letters. */
  lemma CaseInsensitive(s: string, t: string)
    requires SameIgnoringCase(s, t)
    ensures IsImageSuffix(s) <==> IsImageSuffix(t)
  {
    SameIgnoringCaseLower(s, t);
  }

  /** An image suffix is a dot followed by three or four characters, and has
      no other dot. */
  lemma ImageSuffixShape(suffix: string)
    requires IsImageSuffix(suffix)
    ensures 4 <= |suffix| <= 5 && suffix[0] == '.'
    ensures forall i :: 1 <= i < |suffix| ==> suffix[i] != '.'
  {
    var e := Lower(suffix);
    assert e[0] == LowerChar(suffix[0]);
    forall i | 1 <= i < |suffix|
      ensures suffix[i] != '.'
    {
      assert e[i] == LowerChar(suffix[i]);
    }
  }

  /** Upper and mixed case are accepted; a different extension, or none, is not. */
  lemma SuffixExamples()
    ensures IsImageSuffix(".JPG") && IsImageSuffix(".Tiff") && IsImageSuffix(".png")
    ensures !IsImageSuffix(".gif") && !IsImageSuffix("") && !IsImageSuffix("jpg")
  {
    assert Lower(".JPG") == ".jpg";
    assert Lower(".Tiff") == ".tiff";
    assert Lower(".png") == ".png";
    assert Lower(".gif") == ".gif";
    assert Lower("jpg") == "jpg";
  }

  /** One entry of a directory listing: its path, whether it is a regular
      file, and the suffix of its name. */
  datatype DirEntry = DirEntry(path: string, isFile: bool, suffix: string)

  /** The paths `iter_images` yields for a listing, in listing order. */
  function ImagePaths(entries: seq<DirEntry>): seq<string>
    decreases |entries|
  {
    if entries == [] then []
    else
      var n := |entries| - 1;
      ImagePaths(entries[..n])
        + (if IsImage(entries[n].isFile, entries[n].suffix) then [entries[n].path] else [])
  }

  /** A path is yielded exactly when some entry with that path is a file with
      an image suffix. */
  lemma {:induction false} ImagePathsMembers(entries: seq<DirEntry>, p: string)
    ensures p in ImagePaths(entries) <==>
      exists j :: 0 <= j < |entries| && entries[j].path == p && IsImage(entries[j].isFile, entries[j].suffix)
    decreases |entries|
  {
    if entries != [] {
      var n := |entries| - 1;
      var front := entries[..n];
      ImagePathsMembers(front, p);
      var last := if IsImage(entries[n].isFile, entries[n].suffix) then [entries[n].path] else [];
      assert ImagePaths(entries) == ImagePaths(front) + last;
      if j :| 0 <= j < |front| && front[j].path == p && IsImage(front[j].isFile, front[j].suffix) {
        assert entries[j] == front[j];
      }
      if j :| 0 <= j < |entries| && entries[j].path == p && IsImage(entries[j].isFile, entries[j].suffix) {
        if j < n {
          assert front[j] == entries[j];
        }
      }
    }
  }

  /** The filtering loop of `iter_images` over an already-read listing. */
  method ListImages(entries: seq<DirEntry>) returns (images: seq<string>)
    ensures images == ImagePaths(entries)
    ensures |images| <= |entries|
  {
    images := [];
    assert entries[..0] == [];
    for i := 0 to |entries|
      invariant images == ImagePaths(entries[..i])
      invariant |images| <= i
    {
      var entry := entries[i];
      assert entries[..i + 1][..i] == entries[..i];
      if entry.isFile {
        if Lower(entry.suffix) in ImageExts {
          images := images + [entry.path];
        }
      }
    }
    assert entries[..|entries|] == entries;
  }
}
