/** How an uploaded file is classified and named on disk (`getFileType` and the
    extension rule of the upload handler in the files route). */
module FileTypes {
  import opened Common
  import opened Text

  /** `s.split('.').pop()`: the text after the last '.', or all of `s` when it has none.
      The three clauses determine the result uniquely. */
  function LastSegment(s: string): (r: string)
    ensures |r| <= |s| && r == s[|s| - |r|..]
    ensures '.' !in r
    ensures |r| < |s| ==> s[|s| - |r| - 1] == '.'
  {
    if s == [] then []
    else if s[|s| - 1] == '.' then []
    else
      var p := s[..|s| - 1];
      var q := LastSegment(p);
      assert p[|p| - |q|..] + [s[|s| - 1]] == s[|s| - |q| - 1..];
      q + [s[|s| - 1]]
  }

  /** The extension the type is looked up by: the last segment, lower-cased. */
  function Extension(filename: string): string {
    ToLower(LastSegment(filename))
  }

  /** The own entries of the type table. */
  function TypeOf(ext: string): Option<string> {
    if ext == "pdf" then Some("pdf")
    else if ext == "doc" || ext == "docx" then Some("docx")
    else if ext == "ppt" || ext == "pptx" then Some("ppt")
    else if ext == "jpg" || ext == "jpeg" || ext == "png" || ext == "gif" || ext == "webp" || ext == "svg" then Some("image")
    else None
  }

  /** The type stored for an upload: the table's entry for the extension, else "other". */
  function GetFileType(filename: string): (t: string)
    ensures t == "pdf" || t == "docx" || t == "ppt" || t == "image" || t == "other"
    ensures TypeOf(Extension(filename)).None? <==> t == "other"
  {
    TypeNames(Extension(filename));
    TypeOf(Extension(filename)).GetOr("other")
  }

  /** Every type the table gives is one of the four names, none of them "other". */
  lemma TypeNames(ext: string)
    ensures TypeOf(ext).Some? ==>
      (TypeOf(ext).value == "pdf" || TypeOf(ext).value == "docx" || TypeOf(ext).value == "ppt" || TypeOf(ext).value == "image") &&
      TypeOf(ext).value != "other"
  {
    assert |"pdf"| == 3 && |"docx"| == 4 && |"ppt"| == 3;
    assert "image"[0] == 'i' && "other"[0] == 'o';
  }

  /** The extension of the stored copy: the last segment as written (case kept), or
      "bin" when that segment is empty. */
  function DiskExtension(originalName: string): (r: string)
    ensures r != [] && '.' !in r
    ensures LastSegment(originalName) != [] ==> r == LastSegment(originalName)
  {
    var e := LastSegment(originalName);
    if e == [] then "bin" else e
  }

  /** The segment after the last '.' of `base.ext` is `ext`, whatever `base` holds. */
  lemma {:induction false} LastSegmentAfterDot(base: string, ext: string)
    requires '.' !in ext
    ensures LastSegment(base + "." + ext) == ext
  {
    var s := base + "." + ext;
    if ext != [] {
      var e := ext[..|ext| - 1];
      assert s[..|s| - 1] == base + "." + e;
      LastSegmentAfterDot(base, e);
      assert ext == e + [ext[|ext| - 1]];
    }
  }

  /** A name without '.' is classified by its whole text. */
  lemma NoDotName(filename: string)
    requires '.' !in filename
    ensures LastSegment(filename) == filename
    ensures GetFileType(filename) == TypeOf(ToLower(filename)).GetOr("other")
  {
  }

  lemma {:induction false} ToLowerIdempotent(s: string)
    ensures ToLower(ToLower(s)) == ToLower(s)
  {
    var t := ToLower(s);
    assert forall i :: 0 <= i < |s| ==> LowerChar(t[i]) == t[i];
  }

  /** The type depends only on the text after the last '.', and not on its case:
      `x.PDF` and `x.pdf` are both "pdf". */
  lemma FileTypeByExtension(base: string, ext: string)
    requires '.' !in ext
    ensures GetFileType(base + "." + ext) == TypeOf(ToLower(ext)).GetOr("other")
    ensures '.' !in ToLower(ext) ==> GetFileType(base + "." + ext) == GetFileType(base + "." + ToLower(ext))
  {
    LastSegmentAfterDot(base, ext);
    if '.' !in ToLower(ext) {
      LastSegmentAfterDot(base, ToLower(ext));
      ToLowerIdempotent(ext);
    }
  }

  /** Worked examples, whatever the name holds before its last dot (`Notes.v2.PDF`,
      `scan.`, `archive.tar.gz`): an upper-case extension, a trailing dot, and an unknown
      extension. */
  lemma ExampleUpperCasePdf(base: string)
    ensures GetFileType(base + "." + "PDF") == "pdf"
  {
    FileTypeByExtension(base, "PDF");
    assert ToLower("PDF") == "pdf";
  }

  lemma ExampleTrailingDot(base: string)
    ensures GetFileType(base + "." + "") == "other"
    ensures DiskExtension(base + "." + "") == "bin"
  {
    LastSegmentAfterDot(base, "");
  }

  lemma ExampleUnknownExtension(base: string)
    ensures GetFileType(base + "." + "gz") == "other"
    ensures DiskExtension(base + "." + "gz") == "gz"
  {
    LastSegmentAfterDot(base, "gz");
    LowerWithoutCapitals("gz");
    assert Extension(base + "." + "gz") == "gz";
    assert TypeOf("gz").None?;
  }

  // ----- The table lookup as written -----

  /** A property read `typeMap[ext]` on the object literal: an own entry, a member every
      object inherits from `Object.prototype` (the lower-case ones are `constructor` and
      `__proto__`), or `undefined`. */
  datatype Lookup = Own(value: string) | Inherited | Missing

  function TypeMapLookup(ext: string): (l: Lookup)
    ensures l.Own? <==> TypeOf(ext).Some?
  {
    match TypeOf(ext)
    case Some(t) => Own(t)
    case None => if ext == "constructor" || ext == "__proto__" then Inherited else Missing
  }

  /** A JavaScript value as far as the upload needs it: a string, or something that is
      not one (the inherited function or object), which the database refuses as a
      file type, so the upload answers 500. */
  datatype JsValue = Str(s: string) | NotAString

  /** `typeMap[ext] || 'other'` as the source evaluates it. */
  function FileTypeAsWritten(filename: string): JsValue {
    match TypeMapLookup(Extension(filename))
    case Own(t) => Str(t)
    case Inherited => NotAString
    case Missing => Str("other")
  }

  /** The lookup as written agrees with `GetFileType` except on the two inherited names. */
  lemma AsWrittenAgrees(filename: string)
    requires Extension(filename) != "constructor" && Extension(filename) != "__proto__"
    ensures FileTypeAsWritten(filename) == Str(GetFileType(filename))
  {
  }

  lemma ConstructorInherited()
    ensures TypeOf("constructor").None? && TypeMapLookup("constructor") == Inherited
  {
  }

  /** Any file whose name ends in `.constructor` gets no string type as written, while
      the evident intent (an unknown extension is "other") gives "other". */
  lemma InheritedKeyCounterexample(base: string)
    ensures FileTypeAsWritten(base + "." + "constructor").NotAString?
    ensures GetFileType(base + "." + "constructor") == "other"
  {
    var name := base + "." + "constructor";
    LastSegmentAfterDot(base, "constructor");
    LowerWithoutCapitals("constructor");
    assert Extension(name) == "constructor";
    ConstructorInherited();
  }
}
