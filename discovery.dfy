/**
 * Image discovery (`SUPPORTED_EXT`, `_iter_images`, `gather_images`). The directory
 * walk is given as the sequence of entries `rglob('*')` would produce, each with
 * its depth below the source folder; `iterdir()` sees the depth-1 entries.
 */
module Discovery {
  import opened Text
  import opened PathNames
  import opened Sources

  const SupportedExt: set<string> := {".jpg", ".jpeg", ".png", ".bmp", ".tiff", ".tif", ".webp"}

  datatype Entry = Entry(file: SourceFile, isFile: bool, depth: nat)

  /** `p.suffix.lower() in SUPPORTED_EXT` */
  predicate IsSupported(name: string) {
    Lower(Suffix(name)) in SupportedExt
  }

  /** The test `_iter_images` applies to each entry. */
  predicate Accepted(e: Entry) {
    e.isFile && IsSupported(e.file.name)
  }

  /** Whether the walk for the given mode visits the entry at all. */
  predicate Visited(e: Entry, recursive: bool) {
    recursive || e.depth == 1
  }

  /** `_iter_images(folder, recursive)`: the accepted entries, in walk order. */
  function IterImages(tree: seq<Entry>, recursive: bool): (r: seq<Entry>)
    ensures |r| <= |tree|
    decreases |tree|
  {
    if tree == [] then []
    else
      var rest := IterImages(tree[1..], recursive);
      if Visited(tree[0], recursive) && Accepted(tree[0]) then [tree[0]] + rest else rest
  }

  /** An entry is yielded iff the walk visits it and it passes the file and suffix test. */
  lemma {:induction false} IterImagesMembers(tree: seq<Entry>, recursive: bool)
    ensures forall e :: e in IterImages(tree, recursive) <==> e in tree && Visited(e, recursive) && Accepted(e)
    decreases |tree|
  {
    if tree != [] {
      IterImagesMembers(tree[1..], recursive);
      assert forall e :: e in tree <==> e == tree[0] || e in tree[1..];
    }
  }

  /** Filtering distributes over a split of the walk, so the yielded entries keep walk order. */
  lemma {:induction false} IterImagesConcat(a: seq<Entry>, b: seq<Entry>, recursive: bool)
    ensures IterImages(a + b, recursive) == IterImages(a, recursive) + IterImages(b, recursive)
    decreases |a|
  {
    if a == [] {
      assert a + b == b;
    } else {
      assert (a + b)[0] == a[0] && (a + b)[1..] == a[1..] + b;
      IterImagesConcat(a[1..], b, recursive);
    }
  }

  /** `gather_images(config)`: the files of the accepted entries, as a list. */
  function GatherImages(tree: seq<Entry>, recursive: bool): seq<SourceFile> {
    var found := IterImages(tree, recursive);
    seq(|found|, i requires 0 <= i < |found| => found[i].file)
  }

  /** A file is in the image list iff it is the file of an entry the walk yields. */
  lemma GatherImagesMembers(tree: seq<Entry>, recursive: bool, f: SourceFile)
    ensures f in GatherImages(tree, recursive) <==>
              exists e :: e in IterImages(tree, recursive) && e.file == f
    ensures f in GatherImages(tree, recursive) <==>
              exists e :: e in tree && Visited(e, recursive) && Accepted(e) && e.file == f
  {
    var found := IterImages(tree, recursive);
    var files := GatherImages(tree, recursive);
    GatherImagesFiles(found, files, f);
    IterImagesMembers(tree, recursive);
  }

  /** The image list of a split walk is the list of its first part followed by that of the second. */
  lemma GatherImagesConcat(a: seq<Entry>, b: seq<Entry>, recursive: bool)
    ensures GatherImages(a + b, recursive) == GatherImages(a, recursive) + GatherImages(b, recursive)
  {
    var x, y := IterImages(a, recursive), IterImages(b, recursive);
    IterImagesConcat(a, b, recursive);
    var g, l, r := GatherImages(a + b, recursive), GatherImages(a, recursive), GatherImages(b, recursive);
    assert |g| == |l| + |r|;
    forall i | 0 <= i < |g|
      ensures g[i] == (l + r)[i]
    {
      if i < |x| {
        assert (x + y)[i] == x[i];
      } else {
        assert (x + y)[i] == y[i - |x|];
      }
    }
  }

  /** Membership in the list of files of a list of entries. */
  lemma GatherImagesFiles(found: seq<Entry>, files: seq<SourceFile>, f: SourceFile)
    requires |files| == |found|
    requires forall i :: 0 <= i < |found| ==> files[i] == found[i].file
    ensures f in files <==> exists e :: e in found && e.file == f
  {
    if f in files {
      var i :| 0 <= i < |files| && files[i] == f;
      assert found[i] in found;
    }
    if exists e :: e in found && e.file == f {
      var e :| e in found && e.file == f;
      var i :| 0 <= i < |found| && found[i] == e;
      assert files[i] == f;
    }
  }

  /** Lower-casing keeps every dot where it was, so it finds the same last dot. */
  lemma RFindDotLower(s: string)
    ensures RFind(Lower(s), '.') == RFind(s, '.')
  {
    var a, b := RFind(Lower(s), '.'), RFind(s, '.');
    assert a >= 0 ==> s[a] == '.';
    assert b >= 0 ==> Lower(s)[b] == '.';
  }

  lemma LowerOfSlice(s: string, i: nat)
    requires i <= |s|
    ensures Lower(s[i..]) == Lower(s)[i..]
  {
  }

  /** The lower-cased suffix of a name is read off the lower-cased name. */
  lemma LowerSuffix(s: string)
    ensures Lower(Suffix(s)) == Suffix(Lower(s))
  {
    RFindDotLower(s);
    if HasSuffix(s) {
      LowerOfSlice(s, RFind(s, '.'));
    }
  }

  /** Matching is case-insensitive: names equal up to ASCII case are accepted alike. */
  lemma SupportedIgnoresCase(a: string, b: string)
    requires Lower(a) == Lower(b)
    ensures IsSupported(a) <==> IsSupported(b)
  {
    LowerSuffix(a);
    LowerSuffix(b);
  }

  /** Every supported extension is a dot followed by at least three dot-free characters. */
  lemma SupportedExtShape(ext: string)
    requires ext in SupportedExt
    ensures |ext| >= 4 && ext[0] == '.'
    ensures forall i :: 1 <= i < |ext| ==> ext[i] != '.'
  {
  }

  /**
   * The suffix rule restated without `rfind`: a name is accepted iff it ends, up to
   * case, in one of the supported extensions and has at least one character before it.
   */
  lemma SupportedByEnding(name: string)
    ensures IsSupported(name) <==>
              exists ext :: ext in SupportedExt && |ext| < |name| && Lower(name[|name| - |ext|..]) == ext
  {
    if IsSupported(name) {
      var ext := Lower(Suffix(name));
      assert HasSuffix(name);
      assert name[|name| - |ext|..] == Suffix(name);
    }
    if exists ext :: ext in SupportedExt && |ext| < |name| && Lower(name[|name| - |ext|..]) == ext {
      var ext :| ext in SupportedExt && |ext| < |name| && Lower(name[|name| - |ext|..]) == ext;
      SupportedEnding(name, ext);
    }
  }

  lemma SupportedEnding(name: string, ext: string)
    requires ext in SupportedExt && |ext| < |name| && Lower(name[|name| - |ext|..]) == ext
    ensures IsSupported(name)
  {
    SupportedExtShape(ext);
    var j := |name| - |ext|;
    assert LowerChar(name[j]) == ext[0];
    forall i | j < i < |name|
      ensures name[i] != '.'
    {
      assert LowerChar(name[i]) == ext[i - j];
    }
    RFindAt(name, '.', j);
    assert Suffix(name) == name[j..];
  }

  /** Examples of the suffix rule: upper case matches, a dot-file or a bare dot has no suffix. */
  lemma SupportedExamples()
    ensures IsSupported("IMG_0001.JPG")
    ensures IsSupported("scan.Tiff")
    ensures !IsSupported(".jpg")
    ensures !IsSupported("photo.gif")
  {
    RFindAt("IMG_0001.JPG", '.', 8);
    assert Lower(".JPG") == ".jpg";
    RFindAt("scan.Tiff", '.', 4);
    assert Lower(".Tiff") == ".tiff";
    RFindAt(".jpg", '.', 0);
    RFindAt("photo.gif", '.', 5);
    assert Lower(".gif") == ".gif";
  }
}
