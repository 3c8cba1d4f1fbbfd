/**
 * The upload_to functions of the Category, User and Product image fields.
 * Each stores an upload as folder/slug-suffix.ext, where slug is the
 * slugified name of the row, suffix the first eight characters of a random
 * uuid4 hex string, and ext the text after the last '.' of the uploaded
 * file's name. slugify and the uuid are not modelled: they are parameters.
 */
module UploadPaths {

  const CATEGORY_FOLDER: string := "categories_images"
  const USER_FOLDER: string := "users_images"
  const PRODUCT_FOLDER: string := "imagenes"

  /** filename.split('.')[-1], taken from the end of the name. */
  function Extension(filename: string): (ext: string)
    ensures |ext| <= |filename|
    ensures '.' !in ext
    decreases |filename|
  {
    if |filename| == 0 then ""
    else if filename[|filename| - 1] == '.' then ""
    else Extension(filename[..|filename| - 1]) + [filename[|filename| - 1]]
  }

  /**
   * The extension is the text after the last '.': a suffix of the name
   * that holds no '.', preceded by a '.' unless it is the whole name.
   */
  lemma {:induction false} ExtensionIsLastPart(filename: string)
    ensures var ext := Extension(filename);
            && |ext| <= |filename| && filename[|filename| - |ext|..] == ext
            && '.' !in ext
            && (|ext| < |filename| ==> filename[|filename| - |ext| - 1] == '.')
    decreases |filename|
  {
    if |filename| > 0 && filename[|filename| - 1] != '.' {
      var init, last := filename[..|filename| - 1], filename[|filename| - 1];
      ExtensionIsLastPart(init);
      var e := Extension(init);
      assert filename == init + [last];
      assert filename[|filename| - |e| - 1..] == init[|init| - |e|..] + [last];
    }
  }

  /** A name holding a '.' is the text before its extension, then '.', then the extension. */
  lemma ExtensionSplits(filename: string)
    requires '.' in filename
    ensures var ext := Extension(filename);
            |ext| < |filename| && filename == filename[..|filename| - |ext| - 1] + "." + ext
  {
    ExtensionIsLastPart(filename);
    var ext := Extension(filename);
    assert filename == filename[..|filename| - |ext| - 1] + "." + filename[|filename| - |ext|..];
  }

  /** A name that ends in '.' and then a dot-free text has that text as its extension. */
  lemma {:induction false} ExtensionAfterDot(stem: string, ext: string)
    requires '.' !in ext
    ensures Extension(stem + "." + ext) == ext
    decreases |ext|
  {
    var s := stem + "." + ext;
    if ext == [] {
      assert s[|s| - 1] == '.';
    } else {
      var init := ext[..|ext| - 1];
      assert s[..|s| - 1] == stem + "." + init;
      ExtensionAfterDot(stem, init);
      assert ext == init + [ext[|ext| - 1]];
    }
  }

  /** uuid.hex[:8]: Python slicing keeps the whole text when it is shorter. */
  function Suffix(uuidHex: string): (suffix: string)
    ensures |suffix| == if |uuidHex| < 8 then |uuidHex| else 8
    ensures suffix <= uuidHex
  {
    if |uuidHex| <= 8 then uuidHex else uuidHex[..8]
  }

  /**
   * What posixpath.join(folder, name) puts before name: nothing when name
   * starts with '/' (it replaces the folder), the folder alone when it is
   * empty or ends in '/', and otherwise the folder and one '/'.
   */
  function JoinHead(folder: string, name: string): string
  {
    if |name| > 0 && name[0] == '/' then ""
    else if folder == [] || folder[|folder| - 1] == '/' then folder
    else folder + "/"
  }

  /** posixpath.join(folder, name) for one folder and one name. */
  function Join(folder: string, name: string): (path: string)
    ensures |name| > 0 && name[0] == '/' ==> path == name
    ensures (|name| == 0 || name[0] != '/') && |folder| > 0 && folder[|folder| - 1] != '/'
            ==> path == folder + "/" + name
    ensures |name| <= |path| && path[|path| - |name|..] == name
  {
    var head := JoinHead(folder, name);
    assert (head + name)[|head|..] == name;
    head + name
  }

  /** The file name f"{slug}-{suffix}.{ext}". */
  function StoredName(slug: string, suffix: string, ext: string): string
  {
    slug + "-" + suffix + "." + ext
  }

  /** The stored name of an upload into `folder` for a row whose name slugifies to `slug`. */
  function UploadTo(folder: string, slug: string, uuidHex: string, filename: string): (path: string)
    ensures var name := StoredName(slug, Suffix(uuidHex), Extension(filename));
            |name| <= |path| && path[|path| - |name|..] == name
  {
    Join(folder, StoredName(slug, Suffix(uuidHex), Extension(filename)))
  }

  /** Whether a slug keeps posixpath.join from discarding the folder. */
  predicate Relative(slug: string)
  {
    |slug| == 0 || slug[0] != '/'
  }

  lemma JoinStoredName(folder: string, slug: string, suffix: string, ext: string)
    requires |folder| > 0 && folder[|folder| - 1] != '/' && Relative(slug)
    ensures Join(folder, StoredName(slug, suffix, ext)) == folder + "/" + slug + "-" + suffix + "." + ext
  {
    var name := StoredName(slug, suffix, ext);
    assert name[0] == if |slug| > 0 then slug[0] else '-';
    assert (folder + "/") + (slug + "-" + suffix + "." + ext) == folder + "/" + slug + "-" + suffix + "." + ext;
  }

  /** Into a folder that does not end in '/', with a relative slug, the stored name is folder/slug-suffix.ext. */
  lemma UploadToShape(folder: string, slug: string, uuidHex: string, filename: string)
    requires |folder| > 0 && folder[|folder| - 1] != '/' && Relative(slug)
    ensures UploadTo(folder, slug, uuidHex, filename)
         == folder + "/" + slug + "-" + Suffix(uuidHex) + "." + Extension(filename)
  {
    JoinStoredName(folder, slug, Suffix(uuidHex), Extension(filename));
  }

  function UploadToCategory(name: string, filename: string, uuidHex: string, slugify: string -> string): (path: string)
    ensures Relative(slugify(name)) ==>
      path == CATEGORY_FOLDER + "/" + slugify(name) + "-" + Suffix(uuidHex) + "." + Extension(filename)
  {
    // Both branches give the same path; the first only calls UploadToShape, whose
    // precondition holds there, to establish the ensures.
    if Relative(slugify(name)) then UploadToShape(CATEGORY_FOLDER, slugify(name), uuidHex, filename); UploadTo(CATEGORY_FOLDER, slugify(name), uuidHex, filename)
    else UploadTo(CATEGORY_FOLDER, slugify(name), uuidHex, filename)
  }

  function UploadToUser(name: string, filename: string, uuidHex: string, slugify: string -> string): (path: string)
    ensures Relative(slugify(name)) ==>
      path == USER_FOLDER + "/" + slugify(name) + "-" + Suffix(uuidHex) + "." + Extension(filename)
  {
    // Both branches give the same path; the first only calls UploadToShape, whose
    // precondition holds there, to establish the ensures.
    if Relative(slugify(name)) then UploadToShape(USER_FOLDER, slugify(name), uuidHex, filename); UploadTo(USER_FOLDER, slugify(name), uuidHex, filename)
    else UploadTo(USER_FOLDER, slugify(name), uuidHex, filename)
  }

  function UploadToProducto(name: string, filename: string, uuidHex: string, slugify: string -> string): (path: string)
    ensures Relative(slugify(name)) ==>
      path == PRODUCT_FOLDER + "/" + slugify(name) + "-" + Suffix(uuidHex) + "." + Extension(filename)
  {
    // Both branches give the same path; the first only calls UploadToShape, whose
    // precondition holds there, to establish the ensures.
    if Relative(slugify(name)) then UploadToShape(PRODUCT_FOLDER, slugify(name), uuidHex, filename); UploadTo(PRODUCT_FOLDER, slugify(name), uuidHex, filename)
    else UploadTo(PRODUCT_FOLDER, slugify(name), uuidHex, filename)
  }

  /** Whatever the folder, the stored name is something, then '.', then the extension. */
  lemma JoinEndsInExtension(folder: string, slug: string, suffix: string, ext: string)
    ensures var name := StoredName(slug, suffix, ext);
            Join(folder, name) == (JoinHead(folder, name) + slug + "-" + suffix) + "." + ext
  {
    var name := StoredName(slug, suffix, ext);
    var head := JoinHead(folder, name);
    assert head + (slug + "-" + suffix + "." + ext) == head + slug + "-" + suffix + "." + ext;
  }

  /** The stored file keeps the extension of the uploaded one. */
  lemma UploadKeepsExtension(folder: string, slug: string, uuidHex: string, filename: string)
    ensures Extension(UploadTo(folder, slug, uuidHex, filename)) == Extension(filename)
  {
    var suffix, ext := Suffix(uuidHex), Extension(filename);
    JoinEndsInExtension(folder, slug, suffix, ext);
    ExtensionIsLastPart(filename);
    ExtensionAfterDot(JoinHead(folder, StoredName(slug, suffix, ext)) + slug + "-" + suffix, ext);
  }

  /** Where the suffix sits in a stored name. */
  lemma SuffixPosition(folder: string, slug: string, suffix: string, ext: string, i: nat)
    requires i < |suffix|
    ensures var name := StoredName(slug, suffix, ext);
            Join(folder, name)[|JoinHead(folder, name)| + |slug| + 1 + i] == suffix[i]
  {
    var name := StoredName(slug, suffix, ext);
    assert name[|slug| + 1 + i] == suffix[i];
  }

  /** JoinHead depends on the name only through its first character, which the slug fixes. */
  lemma SameHead(folder: string, slug: string, s1: string, e1: string, s2: string, e2: string)
    ensures JoinHead(folder, StoredName(slug, s1, e1)) == JoinHead(folder, StoredName(slug, s2, e2))
  {
    assert StoredName(slug, s1, e1)[0] == StoredName(slug, s2, e2)[0];
  }

  /**
   * Two uploads for rows with the same name into the same folder collide
   * only when their uuid suffixes do: different suffixes of one length
   * give different stored names, whatever the uploaded files are called.
   */
  lemma {:induction false} DistinctSuffixesDistinctPaths(
    folder: string, slug: string, uuid1: string, uuid2: string, file1: string, file2: string)
    requires |Suffix(uuid1)| == |Suffix(uuid2)| && Suffix(uuid1) != Suffix(uuid2)
    ensures UploadTo(folder, slug, uuid1, file1) != UploadTo(folder, slug, uuid2, file2)
  {
    var s1, s2 := Suffix(uuid1), Suffix(uuid2);
    var e1, e2 := Extension(file1), Extension(file2);
    var i :| 0 <= i < |s1| && s1[i] != s2[i];
    SameHead(folder, slug, s1, e1, s2, e2);
    SuffixPosition(folder, slug, s1, e1, i);
    SuffixPosition(folder, slug, s2, e2, i);
  }
}
