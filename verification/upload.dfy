/** Upload classification: the MIME tables, the content-signature check, the
    file-name sanitiser, generated names and the split of a multipart batch
    into per-category lists (src/lib/upload.js). */
module Upload {
  import opened Wrappers
  import opened Text
  import opened Json
  import opened Validation
  import Seqs

  // ---------------------------------------------------------------------------
  // ALLOWED_TYPES and MAX_SIZES

  /** The four upload directories, in the order `Object.entries(ALLOWED_TYPES)`
      visits them. */
  datatype Category = Images | Videos | Pdfs | Documents

  const Categories: seq<Category> := [Images, Videos, Pdfs, Documents]

  function CategoryName(c: Category): string {
    match c
    case Images => "images"
    case Videos => "videos"
    case Pdfs => "pdfs"
    case Documents => "documents"
  }

  /** The MIME types ALLOWED_TYPES declares. */
  datatype MimeType = Jpeg | Png | Gif | Webp | Mp4 | Webm | Ogg | Pdf | Doc | Docx | Txt

  function MimeName(m: MimeType): string {
    match m
    case Jpeg => "image/jpeg"
    case Png => "image/png"
    case Gif => "image/gif"
    case Webp => "image/webp"
    case Mp4 => "video/mp4"
    case Webm => "video/webm"
    case Ogg => "video/ogg"
    case Pdf => "application/pdf"
    case Doc => "application/msword"
    // written as two pieces: the solver does not index long literals
    case Docx => "application/" + "vnd.openxmlformats-officedocument.wordprocessingml.document"
    case Txt => "text/plain"
  }

  /** The declared type a MIME string names, if any. */
  function ParseMime(s: string): (r: Option<MimeType>)
    ensures r.Some? ==> s == MimeName(r.value)
  {
    if s == MimeName(Jpeg) then Some(Jpeg)
    else if s == MimeName(Png) then Some(Png)
    else if s == MimeName(Gif) then Some(Gif)
    else if s == MimeName(Webp) then Some(Webp)
    else if s == MimeName(Mp4) then Some(Mp4)
    else if s == MimeName(Webm) then Some(Webm)
    else if s == MimeName(Ogg) then Some(Ogg)
    else if s == MimeName(Pdf) then Some(Pdf)
    else if s == MimeName(Doc) then Some(Doc)
    else if s == MimeName(Docx) then Some(Docx)
    else if s == MimeName(Txt) then Some(Txt)
    else None
  }

  /** Every declared name holds a '/'. */
  lemma MimeNameHasSlash(m: MimeType)
    ensures '/' in MimeName(m)
  {
    match m
    case Jpeg | Png | Gif | Webp => assert MimeName(m)[5] == '/';
    case Mp4 | Webm | Ogg => assert MimeName(m)[5] == '/';
    case Pdf => assert MimeName(m)[11] == '/';
    case Doc => assert MimeName(m)[11] == '/';
    case Docx => assert MimeName(m)[11] == '/';
    case Txt => assert MimeName(m)[4] == '/';
  }

  /** The table that declares each type. */
  function CategoryOf(m: MimeType): Category {
    match m
    case Jpeg | Png | Gif | Webp => Images
    case Mp4 | Webm | Ogg => Videos
    case Pdf => Pdfs
    case Doc | Docx | Txt => Documents
  }

  /** An entry of ALLOWED_TYPES: the stored extension and the bytes the content
      must start with (None for `magic: null`). */
  datatype TypeInfo = TypeInfo(ext: string, magic: Option<seq<Byte>>)

  function InfoOf(m: MimeType): TypeInfo {
    match m
    case Jpeg => TypeInfo(".jpg", Some([0xFF, 0xD8, 0xFF]))
    case Png => TypeInfo(".png", Some([0x89, 0x50, 0x4E, 0x47]))
    case Gif => TypeInfo(".gif", Some([0x47, 0x49, 0x46]))
    case Webp => TypeInfo(".webp", Some([0x52, 0x49, 0x46, 0x46]))
    case Mp4 => TypeInfo(".mp4", None)
    case Webm => TypeInfo(".webm", Some([0x1A, 0x45, 0xDF, 0xA3]))
    case Ogg => TypeInfo(".ogg", Some([0x4F, 0x67, 0x67, 0x53]))
    case Pdf => TypeInfo(".pdf", Some([0x25, 0x50, 0x44, 0x46]))
    case Doc => TypeInfo(".doc", Some([0xD0, 0xCF, 0x11, 0xE0]))
    case Docx => TypeInfo(".docx", Some([0x50, 0x4B, 0x03, 0x04]))
    case Txt => TypeInfo(".txt", None)
  }

  /** `ALLOWED_TYPES[c][mime]` as an own property of table c. */
  function TypeOf(c: Category, mime: string): (r: Option<TypeInfo>)
    ensures r.Some? <==> ParseMime(mime).Some? && CategoryOf(ParseMime(mime).value) == c
  {
    match ParseMime(mime)
    case Some(m) => if CategoryOf(m) == c then Some(InfoOf(m)) else None
    case None => None
  }

  const MiB: nat := 1024 * 1024

  /** MAX_SIZES, in bytes. */
  function MaxSize(c: Category): nat {
    match c
    case Images => 10 * MiB
    case Videos => 100 * MiB
    case Pdfs => 20 * MiB
    case Documents => 10 * MiB
  }

  /** MAX_TOTAL_SIZE: the limit on one request's files together. */
  const MaxTotalSize: nat := 150 * MiB

  /** No MIME type appears in two tables, so a type names at most one category. */
  lemma CategoriesAreDisjoint(mime: string, c: Category, d: Category)
    requires TypeOf(c, mime).Some? && TypeOf(d, mime).Some?
    ensures c == d
  {
  }

  /** An extension as the tables write them: a dot followed by letters and
      digits. */
  predicate IsExtension(e: string) {
    |e| >= 2 && e[0] == '.' && forall i :: 1 <= i < |e| ==> IsNameChar(e[i]) && e[i] != '.'
  }

  lemma TableExtensions(m: MimeType)
    ensures IsExtension(InfoOf(m).ext)
  {
  }

  // ---------------------------------------------------------------------------
  // validateMagicNumber

  /** The buffer begins with the signature. */
  predicate HasSignature(buffer: seq<Byte>, magic: seq<Byte>) {
    |magic| <= |buffer| && buffer[..|magic|] == magic
  }

  /** `validateMagicNumber(buffer, expectedMagic)`: a null signature always
      passes; otherwise the buffer must be at least as long as the signature and
      agree with it byte for byte. */
  method ValidateMagicNumber(buffer: seq<Byte>, expected: Option<seq<Byte>>) returns (ok: bool)
    ensures ok <==> expected.None? || HasSignature(buffer, expected.value)
  {
    if expected.None? || |buffer| < |expected.value| {
      return expected.None?;
    }
    var magic := expected.value;
    var i := 0;
    while i < |magic|
      invariant 0 <= i <= |magic|
      invariant forall j :: 0 <= j < i ==> buffer[j] == magic[j]
    {
      if buffer[i] != magic[i] {
        assert buffer[..|magic|][i] != magic[i];
        return false;
      }
      i := i + 1;
    }
    assert buffer[..|magic|] == magic;
    return true;
  }

  // ---------------------------------------------------------------------------
  // getFileCategory

  datatype Classified<T> = Classified(category: Category, found: T)

  /** The category whose table declares the MIME type, scanning `cs` in order. */
  function Scan(cs: seq<Category>, mime: string): (r: Option<Classified<TypeInfo>>)
    ensures r.Some? ==> r.value.category in cs && TypeOf(r.value.category, mime) == Some(r.value.found)
    ensures r.None? ==> forall i :: 0 <= i < |cs| ==> TypeOf(cs[i], mime).None?
  {
    if cs == [] then None
    else match TypeOf(cs[0], mime)
      case Some(info) => Some(Classified(cs[0], info))
      case None => Scan(cs[1..], mime)
  }

  /** `getFileCategory(mimeType)` with the own-property test the tables need
      (`Object.hasOwn(types, mimeType)`): the category whose table declares the
      type and its entry, or null when no table does. */
  function GetFileCategory(mime: string): (r: Option<Classified<TypeInfo>>)
    ensures r.Some? ==> TypeOf(r.value.category, mime) == Some(r.value.found)
    ensures r.None? <==> ParseMime(mime).None?
  {
    var r := Scan(Categories, mime);
    assert ParseMime(mime).Some? ==> CategoryOf(ParseMime(mime).value) in Categories;
    r
  }

  /** The category is determined by the type alone: whichever table declares
      it is the one reported. */
  lemma GetFileCategoryIsUnique(mime: string, c: Category)
    requires TypeOf(c, mime).Some?
    ensures GetFileCategory(mime) == Some(Classified(c, TypeOf(c, mime).value))
  {
    CategoriesAreDisjoint(mime, c, GetFileCategory(mime).value.category);
  }

  /** Names every object literal inherits from Object.prototype. Property access
      `types[name]` finds them although no table declares them, and each is
      truthy (a function, or the prototype object for `__proto__`). A File's
      `type` is lower-cased when the File is made, so of these only
      "constructor" and "__proto__" can arrive as a file type; the rest hold
      an upper-case letter and are listed for the lookup alone. */
  const InheritedNames: set<string> := {
    "constructor", "__proto__", "hasOwnProperty", "isPrototypeOf", "propertyIsEnumerable",
    "toString", "toLocaleString", "valueOf", "__defineGetter__", "__defineSetter__",
    "__lookupGetter__", "__lookupSetter__"}

  /** No inherited name is a declared type. */
  lemma InheritedNamesUndeclared(mime: string)
    requires mime in InheritedNames
    ensures ParseMime(mime).None?
  {
    assert '/' !in mime;
    if ParseMime(mime).Some? {
      MimeNameHasSlash(ParseMime(mime).value);
    }
  }

  /** What `types[mime]` yields in one table: a declared entry, or an inherited
      member, which has neither `ext` nor `magic`. */
  datatype Found = Declared(info: TypeInfo) | Inherited

  function LookupAsWritten(c: Category, mime: string): Option<Found> {
    if TypeOf(c, mime).Some? then Some(Declared(TypeOf(c, mime).value))
    else if mime in InheritedNames then Some(Inherited)
    else None
  }

  function ScanAsWritten(cs: seq<Category>, mime: string): Option<Classified<Found>> {
    if cs == [] then None
    else match LookupAsWritten(cs[0], mime)
      case Some(f) => Some(Classified(cs[0], f))
      case None => ScanAsWritten(cs[1..], mime)
  }

  /** `getFileCategory(mimeType)` as written: the first table for which
      `types[mimeType]` is truthy, inherited members included. */
  function GetFileCategoryAsWritten(mime: string): (r: Option<Classified<Found>>)
    ensures mime !in InheritedNames ==> r == Lift(GetFileCategory(mime))
    ensures mime in InheritedNames ==> r == Some(Classified(Images, Inherited))
  {
    if mime !in InheritedNames then ScanAgrees(Categories, mime); ScanAsWritten(Categories, mime)
    else InheritedNamesUndeclared(mime); ScanAsWritten(Categories, mime)
  }

  function Lift(r: Option<Classified<TypeInfo>>): Option<Classified<Found>> {
    match r
    case None => None
    case Some(Classified(c, info)) => Some(Classified(c, Declared(info)))
  }

  /** On every type that is not an inherited name the lookup as written agrees
      with the own-property lookup. */
  lemma {:induction false} ScanAgrees(cs: seq<Category>, mime: string)
    requires mime !in InheritedNames
    ensures ScanAsWritten(cs, mime) == Lift(Scan(cs, mime))
  {
    if cs != [] {
      ScanAgrees(cs[1..], mime);
    }
  }

  lemma GetFileCategoryAgrees(mime: string)
    requires mime !in InheritedNames
    ensures GetFileCategoryAsWritten(mime) == Lift(GetFileCategory(mime))
  {
    ScanAgrees(Categories, mime);
  }

  /** The inherited names reach the first table, images. */
  lemma InheritedNameIsAnImage(mime: string)
    requires mime in InheritedNames
    ensures GetFileCategoryAsWritten(mime) == Some(Classified(Images, Inherited))
    ensures GetFileCategory(mime) == None
  {
    InheritedNamesUndeclared(mime);
  }

  // ---------------------------------------------------------------------------
  // validateFile

  /** A File taken from the form: its name, declared type and contents; its
      size is the length of the contents. */
  datatype UploadFile = UploadFile(name: string, mime: string, content: seq<Byte>)

  datatype Verdict = Accepted(category: Category, extension: string) | Rejected(error: string)

  function TypeNotAllowed(mime: string): string {
    "File type \"" + mime + "\" is not allowed. Allowed types: Images, Videos, PDFs, Documents (DOC/DOCX/TXT)"
  }

  function TooLarge(c: Category): string {
    "File exceeds maximum size of " + NatToString(MaxSize(c) / MiB) + "MB for " + CategoryName(c)
  }

  function ContentMismatch(mime: string): string {
    "File content does not match declared type \"" + mime + "\". File may be corrupted or mislabeled."
  }

  /** The content satisfies the entry's signature requirement. */
  predicate SignatureOk(content: seq<Byte>, magic: Option<seq<Byte>>) {
    magic.None? || HasSignature(content, magic.value)
  }

  /** `validateFile(file, buffer)` over the own-property lookup: unknown types,
      oversized files and signature mismatches are rejected, in that order. */
  function ValidateFile(f: UploadFile): (v: Verdict)
    ensures ParseMime(f.mime).None? ==> v == Rejected(TypeNotAllowed(f.mime))
    ensures v.Accepted? ==>
      && TypeOf(v.category, f.mime).Some?
      && v.extension == TypeOf(v.category, f.mime).value.ext
      && |f.content| <= MaxSize(v.category)
      && SignatureOk(f.content, TypeOf(v.category, f.mime).value.magic)
  {
    match GetFileCategory(f.mime)
    case None => Rejected(TypeNotAllowed(f.mime))
    case Some(Classified(c, info)) =>
      if |f.content| > MaxSize(c) then Rejected(TooLarge(c))
      else if info.magic.Some? && !HasSignature(f.content, info.magic.value) then Rejected(ContentMismatch(f.mime))
      else Accepted(c, info.ext)
  }

  /** The converse: a declared type within its size limit and with the right
      signature is accepted, and each failing check gives its message. */
  lemma ValidateFileDecides(f: UploadFile, c: Category)
    requires TypeOf(c, f.mime).Some?
    ensures |f.content| > MaxSize(c) ==> ValidateFile(f) == Rejected(TooLarge(c))
    ensures |f.content| <= MaxSize(c) && !SignatureOk(f.content, TypeOf(c, f.mime).value.magic) ==>
      ValidateFile(f) == Rejected(ContentMismatch(f.mime))
    ensures |f.content| <= MaxSize(c) && SignatureOk(f.content, TypeOf(c, f.mime).value.magic) ==>
      ValidateFile(f) == Accepted(c, TypeOf(c, f.mime).value.ext)
  {
    GetFileCategoryIsUnique(f.mime, c);
  }

  /** `validateFile(file, buffer)` as written, over the inherited-name lookup: an
      inherited member has no `magic`, so the signature check is skipped, and no
      `ext`, which the name template renders as "undefined". */
  function ValidateFileAsWritten(f: UploadFile): (v: Verdict)
    ensures f.mime in InheritedNames ==>
      v == if |f.content| > MaxSize(Images) then Rejected(TooLarge(Images)) else Accepted(Images, "undefined")
  {
    match GetFileCategoryAsWritten(f.mime)
    case None => Rejected(TypeNotAllowed(f.mime))
    case Some(Classified(c, found)) =>
      var magic := if found.Declared? then found.info.magic else None;
      if |f.content| > MaxSize(c) then Rejected(TooLarge(c))
      else if magic.Some? && !HasSignature(f.content, magic.value) then Rejected(ContentMismatch(f.mime))
      else Accepted(c, if found.Declared? then found.info.ext else "undefined")
  }

  /** A file declaring an inherited name as its type passes as an image whatever
      its content, while the own-property lookup rejects it. */
  lemma InheritedTypeSkipsSignature(f: UploadFile)
    requires f.mime in InheritedNames && |f.content| <= MaxSize(Images)
    ensures ValidateFileAsWritten(f) == Accepted(Images, "undefined")
    ensures ValidateFile(f) == Rejected(TypeNotAllowed(f.mime))
  {
    InheritedNameIsAnImage(f.mime);
  }

  /** The concrete case: four zero bytes sent with type "constructor". */
  lemma ConstructorTypeIsAcceptedAsImage()
    ensures ValidateFileAsWritten(UploadFile("x.bin", "constructor", [0, 0, 0, 0])) == Accepted(Images, "undefined")
  {
    InheritedTypeSkipsSignature(UploadFile("x.bin", "constructor", [0, 0, 0, 0]));
  }

  /** Apart from inherited names, the two validations agree. */
  lemma ValidateFileAgrees(f: UploadFile)
    requires f.mime !in InheritedNames
    ensures ValidateFileAsWritten(f) == ValidateFile(f)
  {
    GetFileCategoryAgrees(f.mime);
  }

  // ---------------------------------------------------------------------------
  // sanitizeFilename

  /** `.replace(/\.\./g, '')`: removes each ".." met scanning left to right. */
  function RemoveDotPairs(s: string): (r: string)
    ensures |r| <= |s|
    ensures NoPair(r, '.', '.')
    ensures s != [] && s[0] != '.' ==> r != [] && r[0] == s[0]
    ensures NoPair(s, '.', '.') ==> r == s
  {
    if s == [] then []
    else if |s| >= 2 && s[0] == '.' && s[1] == '.' then RemoveDotPairs(s[2..])
    else
      var rest := RemoveDotPairs(s[1..]);
      NoPairConcat([s[0]], rest, '.', '.');
      [s[0]] + rest
  }

  /** `.replace(/[^a-zA-Z0-9\-_.]/g, '_')` on one character. */
  function SafeChar(c: char): char {
    if IsNameChar(c) then c else '_'
  }

  function ReplaceUnsafe(s: string): (r: string)
    ensures |r| == |s|
    ensures forall i :: 0 <= i < |s| ==> r[i] == SafeChar(s[i])
    ensures AllNameChars(r)
    ensures AllNameChars(s) ==> r == s
  {
    seq(|s|, i requires 0 <= i < |s| => SafeChar(s[i]))
  }

  /** `sanitizeFilename(filename)`: drops '/', '\\' and NUL, removes ".." pairs,
      replaces every other unsafe character by '_', keeps at most 100
      characters and falls back to "file". */
  function SanitizeFilename(name: string): (r: string)
    ensures 1 <= |r| <= 100
    ensures IsSafeName(r)
    ensures NoPair(r, '.', '.')
  {
    var s := RemoveDotPairs(RemoveChar(RemoveChar(RemoveChar(name, '/'), '\\'), '\0'));
    var t := Take(ReplaceUnsafe(s), 100);
    if t == [] then "file" else t
  }

  /** A name that is already clean passes through unchanged. */
  lemma SanitizeFilenameKeepsClean(name: string)
    requires IsSafeName(name) && |name| <= 100 && NoPair(name, '.', '.')
    ensures SanitizeFilename(name) == name
  {
    RemoveCharAbsent(name, '/');
    RemoveCharAbsent(name, '\\');
    RemoveCharAbsent(name, '\0');
    assert ReplaceUnsafe(name) == name;
  }

  lemma {:induction false} RemoveCharAbsent(s: string, c: char)
    requires forall i :: 0 <= i < |s| ==> s[i] != c
    ensures RemoveChar(s, c) == s
  {
    if s != [] {
      RemoveCharAbsent(s[1..], c);
    }
  }

  /** Sanitising twice gives the same name as sanitising once. */
  lemma SanitizeFilenameIdempotent(name: string)
    ensures SanitizeFilename(SanitizeFilename(name)) == SanitizeFilename(name)
  {
    SanitizeFilenameKeepsClean(SanitizeFilename(name));
  }

  // ---------------------------------------------------------------------------
  // generateUniqueFilename

  /** `path.basename(name)`: the last '/'-separated segment once trailing
      slashes are dropped. */
  function BaseName(name: string): string {
    LastPart(TrimTrailing(name, '/'), '/')
  }

  /** `path.extname(name)`: the base name from its last '.', unless that dot
      opens the base name or the base name is "..". */
  function ExtName(name: string): (e: string)
    ensures EndsWith(BaseName(name), e)
  {
    var b := BaseName(name);
    var d := LastIndexOf(b, '.');
    if d <= 0 || b == ".." then
      assert b[|b|..] == "";
      ""
    else
      assert b[|b| - |b[d..]|..] == b[d..];
      b[d..]
  }

  /** `path.basename(name, path.extname(name))`. */
  function Stem(name: string): string {
    var b := BaseName(name);
    b[..|b| - |ExtName(name)|]
  }

  /** `Date.now()`, '-', the random bytes in hex, '-'. */
  function NamePrefix(now: nat, random: seq<Byte>): (p: string)
    ensures forall i :: 0 <= i < |p| ==> IsNameChar(p[i]) && p[i] != '.'
    ensures |p| >= 1 && p[|p| - 1] == '-'
  {
    var p := NatToString(now) + "-" + HexEncode(random) + "-";
    assert forall i :: 0 <= i < |p| ==> IsDecimalDigit(p[i]) || IsHexDigit(p[i]) || p[i] == '-';
    p
  }

  /** The base embedded by generateUniqueFilename as written: the first 20
      characters of the sanitised stem. */
  function EmbeddedBaseAsWritten(name: string): (b: string)
    ensures 1 <= |b| <= 20 && IsSafeName(b)
    ensures NoPair(b, '.', '.')
  {
    var t := SanitizeFilename(Stem(name));
    assert forall i :: 0 <= i < |Take(t, 20)| ==> Take(t, 20)[i] == t[i];
    Take(t, 20)
  }

  /** `generateUniqueFilename(originalName, ext)` as written, with `Date.now()`
      and the eight random bytes passed in. */
  function GenerateUniqueFilenameAsWritten(name: string, ext: string, now: nat, random: seq<Byte>): (r: string)
    ensures EndsWith(r, ext)
  {
    NamePrefix(now, random) + EmbeddedBaseAsWritten(name) + ext
  }

  /** The embedded base with its trailing dots removed, so that it cannot run
      into the extension's dot. */
  function EmbeddedBase(name: string): (b: string)
    ensures |b| <= 20
    ensures forall i :: 0 <= i < |b| ==> IsNameChar(b[i])
    ensures NoPair(b, '.', '.')
    ensures b == [] || b[|b| - 1] != '.'
  {
    var a := EmbeddedBaseAsWritten(name);
    var b := TrimTrailing(a, '.');
    PrefixKeepsNameChars(a, |b|);
    b
  }

  /** A prefix of a name of name characters without ".." is one too. */
  lemma PrefixKeepsNameChars(a: string, n: nat)
    requires n <= |a| && AllNameChars(a) && NoPair(a, '.', '.')
    ensures AllNameChars(a[..n]) && NoPair(a[..n], '.', '.')
  {
    assert forall i :: 0 <= i < n ==> a[..n][i] == a[i];
  }

  /** generateUniqueFilename with the embedded base cut back to its last
      non-dot character. */
  function GenerateUniqueFilename(name: string, ext: string, now: nat, random: seq<Byte>): (r: string)
    ensures EndsWith(r, ext)
  {
    NamePrefix(now, random) + EmbeddedBase(name) + ext
  }

  /** With a table extension, a generated name is a safe file name without "..". */
  lemma GeneratedNameIsClean(name: string, ext: string, now: nat, random: seq<Byte>)
    requires IsExtension(ext)
    ensures var r := GenerateUniqueFilename(name, ext, now, random);
      IsSafeName(r) && NoPair(r, '.', '.')
  {
    var p := NamePrefix(now, random);
    var b := EmbeddedBase(name);
    NoPairConcat(p, b, '.', '.');
    NoPairConcat(p + b, ext, '.', '.');
    NameCharsConcat(p, b);
    NameCharsConcat(p + b, ext);
    assert p + b + ext == GenerateUniqueFilename(name, ext, now, random);
  }

  predicate AllNameChars(s: string) {
    forall i :: 0 <= i < |s| ==> IsNameChar(s[i])
  }

  lemma NameCharsConcat(s: string, t: string)
    requires AllNameChars(s) && AllNameChars(t)
    ensures AllNameChars(s + t)
  {
    forall i | 0 <= i < |s + t|
      ensures IsNameChar((s + t)[i])
    {
      if i >= |s| {
        assert (s + t)[i] == t[i - |s|];
      }
    }
  }

  /** A generated name embeds at most 20 characters of the original name. */
  lemma GeneratedNameLength(name: string, ext: string, now: nat, random: seq<Byte>)
    ensures |GenerateUniqueFilename(name, ext, now, random)| <= |NamePrefix(now, random)| + 20 + |ext|
  {
  }

  /** The directory a category's files are published under,
      `/uploads/${category}/`. */
  function UploadDir(c: Category): string {
    match c
    case Images => "/uploads/images/"
    case Videos => "/uploads/videos/"
    case Pdfs => "/uploads/pdfs/"
    case Documents => "/uploads/documents/"
  }

  /** The public path of a stored file. */
  function UploadPath(c: Category, filename: string): string {
    UploadDir(c) + filename
  }

  lemma UploadDirShape(c: Category)
    ensures var d := UploadDir(c);
      && StartsWith(d, "/uploads/") && HasUploadPrefix(d)
      && NoPair(d, '.', '.') && NoPair(d, '/', '/') && d[|d| - 1] == '/'
  {
    var d := UploadDir(c);
    assert d[..9] == "/uploads/";
    assert forall i :: 0 <= i < |d| ==> d[i] != '.';
    assert forall i :: 0 <= i < |d| - 1 ==> d[i] != '/' || d[i + 1] != '/';
    assert StartsWith(d, d);
  }

  /** Every path saveFile can hand out passes isValidUploadPath. */
  lemma GeneratedPathIsValid(c: Category, name: string, ext: string, now: nat, random: seq<Byte>)
    requires IsExtension(ext)
    ensures IsValidUploadPath(Str(UploadPath(c, GenerateUniqueFilename(name, ext, now, random))))
  {
    var r := GenerateUniqueFilename(name, ext, now, random);
    GeneratedNameIsClean(name, ext, now, random);
    CleanNameMakesValidPath(c, r);
  }

  lemma CleanNameMakesValidPath(c: Category, r: string)
    requires IsSafeName(r) && NoPair(r, '.', '.')
    ensures IsValidUploadPath(Str(UploadPath(c, r)))
  {
    var d := UploadDir(c);
    UploadDirShape(c);
    assert forall i :: 0 <= i < |r| ==> r[i] != '/';
    NoPairConcat(d, r, '.', '.');
    NoPairConcat(d, r, '/', '/');
    LastPartAfter(d, r, '/');
    UploadPrefixKept(d, r);
    UploadPathByPairs(d + r);
  }

  /** As written, a stem whose first 20 sanitised characters end in '.' runs
      into the extension: the public path holds ".." and isValidUploadPath
      refuses it. */
  lemma DotBaseBreaksUploadPath(c: Category, name: string, ext: string, now: nat, random: seq<Byte>)
    requires |ext| >= 1 && ext[0] == '.'
    requires var b := EmbeddedBaseAsWritten(name); b[|b| - 1] == '.'
    ensures !IsValidUploadPath(Str(UploadPath(c, GenerateUniqueFilenameAsWritten(name, ext, now, random))))
  {
    AsWrittenPath(c, name, ext, now, random);
    DotSeam(UploadDir(c) + NamePrefix(now, random), EmbeddedBaseAsWritten(name), ext);
  }

  /** Where the pieces of an as-written generated name sit in its path. */
  lemma AsWrittenPath(c: Category, name: string, ext: string, now: nat, random: seq<Byte>)
    ensures UploadPath(c, GenerateUniqueFilenameAsWritten(name, ext, now, random))
      == (UploadDir(c) + NamePrefix(now, random) + EmbeddedBaseAsWritten(name)) + ext
  {
    Regroup(UploadDir(c), NamePrefix(now, random), EmbeddedBaseAsWritten(name), ext);
  }

  lemma Regroup(d: string, p: string, b: string, e: string)
    ensures d + (p + b + e) == (d + p + b) + e
  {
  }

  /** A piece ending in '.' followed by one starting with '.' puts ".." in
      the path. */
  lemma DotSeam(front: string, b: string, ext: string)
    requires |b| >= 1 && b[|b| - 1] == '.'
    requires |ext| >= 1 && ext[0] == '.'
    ensures !IsValidUploadPath(Str(front + b + ext))
  {
    JoinedAt(front, b);
    JoinedAt(front + b, ext);
    DotPairBreaksUploadPath(front + b + ext, |front + b| - 1);
  }

  /** The characters on either side of the seam of x + y. */
  lemma JoinedAt(x: string, y: string)
    requires |y| >= 1
    ensures (x + y)[|x| + |y| - 1] == y[|y| - 1]
    ensures |x| >= 1 ==> (x + y)[|x| - 1] == x[|x| - 1] && (x + y)[|x|] == y[0]
  {
  }

  /** "a..pdf" has base name "a..pdf", extension ".pdf" and stem "a.". */
  lemma DoubleDotStem()
    ensures Stem("a..pdf") == "a."
  {
    var name := "a..pdf";
    BaseNameWithoutSlash(name);
    StemAt(name, 2);
  }

  /** A name without '/' is its own base name. */
  lemma BaseNameWithoutSlash(name: string)
    requires |name| >= 1 && forall i :: 0 <= i < |name| ==> name[i] != '/'
    ensures BaseName(name) == name
  {
    assert TrimTrailing(name, '/') == name;
    LastPartIsSuffix(name, '/');
  }

  /** A base name whose last '.' sits at d > 0 has stem name[..d]. */
  lemma StemAt(name: string, d: nat)
    requires BaseName(name) == name && name != ".."
    requires 0 < d < |name| && name[d] == '.'
    requires forall j :: d < j < |name| ==> name[j] != '.'
    ensures Stem(name) == name[..d]
  {
    assert LastIndexOf(name, '.') == d;
  }

  /** "a..pdf" embeds "a.", which ends in '.'. */
  lemma DoubleDotEmbedded()
    ensures EmbeddedBaseAsWritten("a..pdf") == "a."
  {
    DoubleDotStem();
    assert IsSafeName("a.") && NoPair("a.", '.', '.');
    SanitizeFilenameKeepsClean("a.");
  }

  /** The concrete case: "a..pdf" is stored as "<now>-<hex>-a..pdf". */
  lemma DoubleDotNameBreaksUploadPath(now: nat, random: seq<Byte>)
    ensures !IsValidUploadPath(Str(UploadPath(Pdfs, GenerateUniqueFilenameAsWritten("a..pdf", ".pdf", now, random))))
  {
    DoubleDotEmbedded();
    DotBaseBreaksUploadPath(Pdfs, "a..pdf", ".pdf", now, random);
  }

  // ---------------------------------------------------------------------------
  // saveFile

  /** What one saveFile call depends on besides the file: the clock, the eight
      random bytes and whether the write to disk succeeds. */
  datatype SaveEnv = SaveEnv(now: nat, random: seq<Byte>, writeOk: bool)

  datatype SaveResult =
    | Saved(path: string, category: Category, filename: string, originalName: string, size: nat, mime: string)
    | SaveFailed(error: string)

  const WriteFailed := "Failed to save file. Please try again."

  /** `saveFile(file)`: validates, names and stores the file, and reports its
      public path under its category's directory. */
  function SaveFile(f: UploadFile, env: SaveEnv): (r: SaveResult)
    ensures r.Saved? <==> ValidateFile(f).Accepted? && env.writeOk
    ensures ValidateFile(f).Rejected? ==> r == SaveFailed(ValidateFile(f).error)
    ensures ValidateFile(f).Accepted? && !env.writeOk ==> r == SaveFailed(WriteFailed)
    ensures r.Saved? ==>
      && ValidateFile(f).category == r.category
      && r.filename == GenerateUniqueFilename(f.name, ValidateFile(f).extension, env.now, env.random)
      && r.path == UploadPath(r.category, r.filename)
      && r.originalName == SanitizeFilename(f.name)
      && r.size == |f.content| && r.mime == f.mime
  {
    match ValidateFile(f)
    case Rejected(e) => SaveFailed(e)
    case Accepted(c, ext) =>
      if !env.writeOk then SaveFailed(WriteFailed)
      else
        var filename := GenerateUniqueFilename(f.name, ext, env.now, env.random);
        Saved(UploadPath(c, filename), c, filename, SanitizeFilename(f.name), |f.content|, f.mime)
  }

  /** Every stored file's public path passes isValidUploadPath. */
  lemma SavedPathIsValid(f: UploadFile, env: SaveEnv)
    requires SaveFile(f, env).Saved?
    ensures IsValidUploadPath(Str(SaveFile(f, env).path))
  {
    var r := SaveFile(f, env);
    TableExtensions(ParseMime(f.mime).value);
    GeneratedPathIsValid(r.category, f.name, TypeOf(r.category, f.mime).value.ext, env.now, env.random);
  }

  // ---------------------------------------------------------------------------
  // processFormDataFiles

  /** One entry of the submitted form: a file, or any other field. */
  datatype FormEntry = FileField(file: UploadFile) | TextField(key: string, value: string)

  datatype UploadError = UploadError(file: string, error: string)

  datatype Batch = Batch(
    images: seq<string>, videos: seq<string>, pdfs: seq<string>, documents: seq<string>,
    errors: seq<UploadError>)

  const EmptyBatch := Batch([], [], [], [], [])

  const TotalTooLarge := "Total upload size exceeds 150MB limit"

  /** The files of the form, in order, without the empty ones. */
  function CollectFiles(entries: seq<FormEntry>): (files: seq<UploadFile>)
    ensures |files| <= |entries|
    ensures forall i :: 0 <= i < |files| ==> |files[i].content| > 0
    ensures forall i :: 0 <= i < |entries| && entries[i].FileField? && |entries[i].file.content| > 0 ==>
      entries[i].file in files
  {
    if entries == [] then []
    else
      var rest := CollectFiles(entries[1..]);
      assert forall i :: 1 <= i < |entries| ==> entries[i] == entries[1..][i - 1];
      if entries[0].FileField? && |entries[0].file.content| > 0 then [entries[0].file] + rest else rest
  }

  /** The files as form entries, to compare them with the form. */
  function FieldsOf(files: seq<UploadFile>): (es: seq<FormEntry>)
    ensures |es| == |files|
  {
    seq(|files|, i requires 0 <= i < |files| => FileField(files[i]))
  }

  /** The collected files appear in the order of their form fields. */
  lemma {:induction false} CollectFilesInOrder(entries: seq<FormEntry>)
    ensures Seqs.Subsequence(FieldsOf(CollectFiles(entries)), entries)
  {
    if entries != [] {
      CollectFilesInOrder(entries[1..]);
      var rest := CollectFiles(entries[1..]);
      if entries[0].FileField? && |entries[0].file.content| > 0 {
        assert FieldsOf(CollectFiles(entries)) == [entries[0]] + FieldsOf(rest);
      } else {
        assert FieldsOf(CollectFiles(entries)) == FieldsOf(rest);
        if rest != [] {
          assert FieldsOf(rest)[0] == FileField(rest[0]);
          assert FieldsOf(rest)[0] != entries[0];
        }
      }
    }
  }

  /** A non-empty file is collected once per form field carrying it; an
      empty file never. */
  lemma {:induction false} CollectFilesCounts(entries: seq<FormEntry>, f: UploadFile)
    ensures multiset(CollectFiles(entries))[f] ==
      if |f.content| > 0 then multiset(entries)[FileField(f)] else 0
  {
    if entries != [] {
      CollectFilesCounts(entries[1..], f);
      var rest := CollectFiles(entries[1..]);
      assert entries == [entries[0]] + entries[1..];
      var here := if entries[0] == FileField(f) then 1 else 0;
      assert multiset(entries)[FileField(f)] == here + multiset(entries[1..])[FileField(f)];
      if entries[0].FileField? && |entries[0].file.content| > 0 {
        assert CollectFiles(entries) == [entries[0].file] + rest;
        assert multiset(CollectFiles(entries))[f] == (if entries[0].file == f then 1 else 0) + multiset(rest)[f];
      } else {
        assert CollectFiles(entries) == rest;
      }
    }
  }

  function TotalSize(files: seq<UploadFile>): nat {
    if files == [] then 0 else |files[0].content| + TotalSize(files[1..])
  }

  /** One result added to the batch: a stored file's path to its category's
      list, a failure to the errors. */
  function Place(b: Batch, f: UploadFile, r: SaveResult): Batch {
    match r
    case SaveFailed(e) => b.(errors := b.errors + [UploadError(f.name, e)])
    case Saved(path, c, _, _, _, _) =>
      match c
      case Images => b.(images := b.images + [path])
      case Videos => b.(videos := b.videos + [path])
      case Pdfs => b.(pdfs := b.pdfs + [path])
      case Documents => b.(documents := b.documents + [path])
  }

  /** The processing loop after its first n files, given the result of
      saving each. */
  function Distribute(files: seq<UploadFile>, rs: seq<SaveResult>, n: nat): Batch
    requires n <= |files| == |rs|
  {
    if n == 0 then EmptyBatch
    else Place(Distribute(files, rs, n - 1), files[n - 1], rs[n - 1])
  }

  /** The results of saving each file in turn; file i is saved with env(i). */
  function Results(files: seq<UploadFile>, env: nat -> SaveEnv): (rs: seq<SaveResult>)
    ensures |rs| == |files|
    ensures forall i :: 0 <= i < |files| ==> rs[i] == SaveFile(files[i], env(i))
  {
    seq(|files|, i requires 0 <= i < |files| => SaveFile(files[i], env(i)))
  }

  /** `processFormDataFiles(formData)`: over the size limit, one "total" error and
      nothing stored; otherwise each file saved in order into its list. */
  function ProcessFormDataFiles(entries: seq<FormEntry>, env: nat -> SaveEnv): (b: Batch)
    ensures TotalSize(CollectFiles(entries)) > MaxTotalSize ==>
      b == Batch([], [], [], [], [UploadError("total", TotalTooLarge)])
  {
    var files := CollectFiles(entries);
    if TotalSize(files) > MaxTotalSize then EmptyBatch.(errors := [UploadError("total", TotalTooLarge)])
    else Distribute(files, Results(files, env), |files|)
  }

  /** The paths of the stored files of category c, in order. */
  function StoredIn(rs: seq<SaveResult>, c: Category): seq<string> {
    if rs == [] then []
    else (if rs[0].Saved? && rs[0].category == c then [rs[0].path] else []) + StoredIn(rs[1..], c)
  }

  /** The failures, named after their files, in order. */
  function FailedIn(files: seq<UploadFile>, rs: seq<SaveResult>): seq<UploadError>
    requires |files| == |rs|
  {
    if rs == [] then []
    else (if rs[0].SaveFailed? then [UploadError(files[0].name, rs[0].error)] else []) + FailedIn(files[1..], rs[1..])
  }

  lemma {:induction false} StoredInSnoc(rs: seq<SaveResult>, r: SaveResult, c: Category)
    ensures StoredIn(rs + [r], c) == StoredIn(rs, c) + (if r.Saved? && r.category == c then [r.path] else [])
  {
    if rs != [] {
      assert (rs + [r])[1..] == rs[1..] + [r];
      StoredInSnoc(rs[1..], r, c);
    } else {
      assert StoredIn([r], c) == (if r.Saved? && r.category == c then [r.path] else []) + StoredIn([], c);
    }
  }

  lemma {:induction false} FailedInSnoc(files: seq<UploadFile>, rs: seq<SaveResult>, f: UploadFile, r: SaveResult)
    requires |files| == |rs|
    ensures FailedIn(files + [f], rs + [r]) == FailedIn(files, rs) + (if r.SaveFailed? then [UploadError(f.name, r.error)] else [])
  {
    if rs != [] {
      assert (rs + [r])[1..] == rs[1..] + [r];
      assert (files + [f])[1..] == files[1..] + [f];
      FailedInSnoc(files[1..], rs[1..], f, r);
    } else {
      assert FailedIn([f], [r]) == (if r.SaveFailed? then [UploadError(f.name, r.error)] else []) + FailedIn([], []);
    }
  }

  /** The batch after n files is the partition of their results: each list
      holds exactly the stored paths of its category, in order, and the errors
      exactly the failures. */
  lemma {:induction false} DistributePartitions(files: seq<UploadFile>, rs: seq<SaveResult>, n: nat)
    requires n <= |files| == |rs|
    ensures Distribute(files, rs, n) == Batch(
        StoredIn(rs[..n], Images), StoredIn(rs[..n], Videos), StoredIn(rs[..n], Pdfs),
        StoredIn(rs[..n], Documents), FailedIn(files[..n], rs[..n]))
  {
    if n > 0 {
      DistributePartitions(files, rs, n - 1);
      var r := rs[n - 1];
      assert rs[..n] == rs[..n - 1] + [r];
      assert files[..n] == files[..n - 1] + [files[n - 1]];
      StoredInSnoc(rs[..n - 1], r, Images);
      StoredInSnoc(rs[..n - 1], r, Videos);
      StoredInSnoc(rs[..n - 1], r, Pdfs);
      StoredInSnoc(rs[..n - 1], r, Documents);
      FailedInSnoc(files[..n - 1], rs[..n - 1], files[n - 1], r);
    }
  }

  /** Every result lands in exactly one list. */
  lemma {:induction false} PartitionCounts(files: seq<UploadFile>, rs: seq<SaveResult>)
    requires |files| == |rs|
    ensures |StoredIn(rs, Images)| + |StoredIn(rs, Videos)| + |StoredIn(rs, Pdfs)|
      + |StoredIn(rs, Documents)| + |FailedIn(files, rs)| == |rs|
  {
    if rs != [] {
      PartitionCounts(files[1..], rs[1..]);
    }
  }

  /** Within the size limit, processFormDataFiles stores or reports every
      non-empty file, sorted by category, in order. */
  lemma ProcessFormDataFilesPartitions(entries: seq<FormEntry>, env: nat -> SaveEnv)
    requires TotalSize(CollectFiles(entries)) <= MaxTotalSize
    ensures ProcessFormDataFiles(entries, env) == Batch(
      StoredIn(Results(CollectFiles(entries), env), Images),
      StoredIn(Results(CollectFiles(entries), env), Videos),
      StoredIn(Results(CollectFiles(entries), env), Pdfs),
      StoredIn(Results(CollectFiles(entries), env), Documents),
      FailedIn(CollectFiles(entries), Results(CollectFiles(entries), env)))
  {
    var files := CollectFiles(entries);
    var rs := Results(files, env);
    DistributeAll(files, rs);
  }

  lemma DistributeAll(files: seq<UploadFile>, rs: seq<SaveResult>)
    requires |files| == |rs|
    ensures Distribute(files, rs, |files|) == Batch(
      StoredIn(rs, Images), StoredIn(rs, Videos), StoredIn(rs, Pdfs), StoredIn(rs, Documents),
      FailedIn(files, rs))
  {
    DistributePartitions(files, rs, |files|);
    assert rs[..|files|] == rs && files[..|files|] == files;
  }

  /** Within the size limit, every non-empty file is accounted for exactly once. */
  lemma ProcessFormDataFilesCounts(entries: seq<FormEntry>, env: nat -> SaveEnv)
    requires TotalSize(CollectFiles(entries)) <= MaxTotalSize
    ensures var b := ProcessFormDataFiles(entries, env);
      |b.images| + |b.videos| + |b.pdfs| + |b.documents| + |b.errors| == |CollectFiles(entries)|
  {
    ProcessFormDataFilesPartitions(entries, env);
    PartitionCounts(CollectFiles(entries), Results(CollectFiles(entries), env));
  }
}
