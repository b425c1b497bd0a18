/**
 Input sanitising and validation shared by the API routes: the string and
 HTML sanitisers, the project-payload validator with its caps and defaults,
 the upload-path whitelist and the UUID check.
 */
module Validation {
  import opened Wrappers
  import opened Json
  import opened Text

  // ---------------------------------------------------------------------------
  // sanitizeString

  /** No two neighbouring characters are both white space. */
  predicate NoDoubleSpace(s: string) {
    forall i :: 0 <= i < |s| - 1 ==> !(IsSpace(s[i]) && IsSpace(s[i + 1]))
  }

  /** The only white-space character that occurs is the plain space. */
  predicate PlainSpacesOnly(s: string) {
    forall i :: 0 <= i < |s| && IsSpace(s[i]) ==> s[i] == ' '
  }

  /** `s.replace(/\s+/g, ' ')`: every maximal run of white space becomes a single space. */
  function CollapseSpaces(s: string): (r: string)
    ensures |r| <= |s|
    ensures NoDoubleSpace(r) && PlainSpacesOnly(r)
    ensures r != [] <==> s != []
    ensures r != [] ==> (IsSpace(r[0]) <==> IsSpace(s[0]))
    decreases |s|
  {
    if s == [] then []
    else if IsSpace(s[0]) then
      var rest := TrimStart(s);
      assert |rest| < |s|;
      [' '] + CollapseSpaces(rest)
    else [s[0]] + CollapseSpaces(s[1..])
  }

  /** `sanitizeString(input, maxLength)`: non-strings become "", otherwise the
      string is trimmed, NUL characters are removed, white-space runs are
      collapsed and the result is cut to maxLength characters. */
  function SanitizeString(input: Value, maxLength: nat): (r: string)
    ensures !input.Str? ==> r == ""
    ensures |r| <= maxLength
    ensures '\0' !in r
    ensures NoDoubleSpace(r) && PlainSpacesOnly(r)
  {
    if !input.Str? then ""
    else
      var noNul := RemoveChar(Trim(input.s), '\0');
      CollapseKeepsAbsent(noNul, '\0');
      var collapsed := CollapseSpaces(noNul);
      PrefixKeepsSpacing(collapsed, if |collapsed| < maxLength then |collapsed| else maxLength);
      Take(collapsed, maxLength)
  }

  /** Cutting a text short keeps its spacing and adds no NUL. */
  lemma PrefixKeepsSpacing(s: string, n: nat)
    requires n <= |s| && NoDoubleSpace(s) && PlainSpacesOnly(s) && '\0' !in s
    ensures NoDoubleSpace(s[..n]) && PlainSpacesOnly(s[..n]) && '\0' !in s[..n]
  {
    assert forall i :: 0 <= i < n ==> s[..n][i] == s[i];
  }

  /** Collapsing white space introduces no other character. */
  lemma {:induction false} CollapseKeepsAbsent(s: string, c: char)
    requires c !in s && !IsSpace(c)
    ensures c !in CollapseSpaces(s)
    decreases |s|
  {
    if s != [] {
      if IsSpace(s[0]) {
        CollapseKeepsAbsent(TrimStart(s), c);
      } else {
        CollapseKeepsAbsent(s[1..], c);
      }
    }
  }

  /** The non-white-space characters of s, in order. */
  function Visible(s: string): string {
    if s == [] then []
    else if IsSpace(s[0]) then Visible(s[1..])
    else [s[0]] + Visible(s[1..])
  }

  lemma {:induction false} VisibleConcat(a: string, b: string)
    ensures Visible(a + b) == Visible(a) + Visible(b)
  {
    if a != [] {
      VisibleConcat(a[1..], b);
      assert (a + b)[0] == a[0];
      assert (a + b)[1..] == a[1..] + b;
    } else {
      assert a + b == b;
    }
  }

  lemma VisibleTrim(s: string)
    ensures Visible(Trim(s)) == Visible(s)
  {
    VisibleTrimStart(s);
    VisibleTrimEnd(TrimStart(s));
  }

  lemma {:induction false} VisibleTrimStart(s: string)
    ensures Visible(TrimStart(s)) == Visible(s)
  {
    if |s| > 0 && IsSpace(s[0]) {
      VisibleTrimStart(s[1..]);
    }
  }

  lemma {:induction false} VisibleTrimEnd(t: string)
    ensures Visible(TrimEnd(t)) == Visible(t)
  {
    if |t| > 0 && IsSpace(t[|t| - 1]) {
      var init := t[..|t| - 1];
      VisibleTrimEnd(init);
      assert t == init + [t[|t| - 1]];
      VisibleConcat(init, [t[|t| - 1]]);
    }
  }

  lemma {:induction false} VisibleRemoveChar(s: string, c: char)
    ensures Visible(RemoveChar(s, c)) == RemoveChar(Visible(s), c)
  {
    if s != [] {
      VisibleRemoveChar(s[1..], c);
    }
  }

  lemma {:induction false} VisibleCollapse(s: string)
    ensures Visible(CollapseSpaces(s)) == Visible(s)
    decreases |s|
  {
    if s != [] {
      if IsSpace(s[0]) {
        VisibleCollapse(TrimStart(s));
        VisibleTrimStart(s);
      } else {
        VisibleCollapse(s[1..]);
      }
    }
  }

  /** Sanitising never loses visible text except NUL characters: when the input
      fits, the visible characters of the result are those of the input with
      the NULs removed. */
  lemma SanitizeStringKeepsText(s: string, maxLength: nat)
    requires |s| <= maxLength
    ensures Visible(SanitizeString(Str(s), maxLength)) == RemoveChar(Visible(s), '\0')
  {
    var trimmed := Trim(s);
    var noNul := RemoveChar(trimmed, '\0');
    var cleaned := CollapseSpaces(noNul);
    assert |trimmed| <= |s|;
    RemoveCharShrinks(trimmed, '\0');
    assert |cleaned| <= maxLength;
    VisibleCollapse(noNul);
    VisibleRemoveChar(trimmed, '\0');
    VisibleTrim(s);
  }

  lemma {:induction false} RemoveCharShrinks(s: string, c: char)
    ensures |RemoveChar(s, c)| <= |s|
  {
    if s != [] {
      RemoveCharShrinks(s[1..], c);
    }
  }

  // ---------------------------------------------------------------------------
  // sanitizeHTML

  /** `s.replace(/c/g, rep)`. */
  function ReplaceAll(s: string, c: char, rep: string): string {
    if s == [] then []
    else (if s[0] == c then rep else [s[0]]) + ReplaceAll(s[1..], c, rep)
  }

  /** The five replacement passes applied in the source's order. */
  function EscapePasses(s: string): string {
    var a := ReplaceAll(s, '&', "&amp;");
    var b := ReplaceAll(a, '<', "&lt;");
    var c := ReplaceAll(b, '>', "&gt;");
    var d := ReplaceAll(c, '"', "&quot;");
    ReplaceAll(d, '\'', "&#x27;")
  }

  /** `sanitizeHTML(input)`: "" for non-strings, otherwise the five passes. */
  function SanitizeHTML(input: Value): (r: string)
    ensures !input.Str? ==> r == ""
    ensures '<' !in r && '>' !in r && '"' !in r && '\'' !in r
  {
    if input.Str? then
      EscapePassesIsEscape(input.s);
      EscapeHasNoMarkup(input.s);
      var r := EscapePasses(input.s);
      assert forall c :: c in r ==> !IsMarkup(c);
      r
    else ""
  }

  /** Reference definition: each character is escaped on its own. */
  function EscapeChar(c: char): string {
    if c == '&' then "&amp;"
    else if c == '<' then "&lt;"
    else if c == '>' then "&gt;"
    else if c == '"' then "&quot;"
    else if c == '\'' then "&#x27;"
    else [c]
  }

  function Escape(s: string): string {
    if s == [] then [] else EscapeChar(s[0]) + Escape(s[1..])
  }

  lemma {:induction false} ReplaceAllConcat(a: string, b: string, c: char, rep: string)
    ensures ReplaceAll(a + b, c, rep) == ReplaceAll(a, c, rep) + ReplaceAll(b, c, rep)
  {
    if a != [] {
      ReplaceAllConcat(a[1..], b, c, rep);
      assert (a + b)[0] == a[0];
      assert (a + b)[1..] == a[1..] + b;
    } else {
      assert a + b == b;
    }
  }

  lemma EscapePassesConcat(a: string, b: string)
    ensures EscapePasses(a + b) == EscapePasses(a) + EscapePasses(b)
  {
    ReplaceAllConcat(a, b, '&', "&amp;");
    var a1, b1 := ReplaceAll(a, '&', "&amp;"), ReplaceAll(b, '&', "&amp;");
    ReplaceAllConcat(a1, b1, '<', "&lt;");
    var a2, b2 := ReplaceAll(a1, '<', "&lt;"), ReplaceAll(b1, '<', "&lt;");
    ReplaceAllConcat(a2, b2, '>', "&gt;");
    var a3, b3 := ReplaceAll(a2, '>', "&gt;"), ReplaceAll(b2, '>', "&gt;");
    ReplaceAllConcat(a3, b3, '"', "&quot;");
    var a4, b4 := ReplaceAll(a3, '"', "&quot;"), ReplaceAll(b3, '"', "&quot;");
    ReplaceAllConcat(a4, b4, '\'', "&#x27;");
  }

  lemma ReplaceAllOne(x: char, c: char, rep: string)
    ensures ReplaceAll([x], c, rep) == if x == c then rep else [x]
  {
    assert [x][1..] == [];
  }

  /** The characters the entities are spelled with. */
  predicate IsEntityChar(c: char) {
    c == '&' || c == '#' || c == ';' || 'a' <= c <= 'z' || '0' <= c <= '9'
  }

  /** A pass for a character that is not an entity character leaves a text
      made of entity characters alone. */
  lemma {:induction false} PassKeepsEntity(e: string, c: char, rep: string)
    requires forall i :: 0 <= i < |e| ==> IsEntityChar(e[i])
    requires !IsEntityChar(c)
    ensures ReplaceAll(e, c, rep) == e
  {
    if e != [] {
      PassKeepsEntity(e[1..], c, rep);
    }
  }

  /** The passes after the one that introduced an entity leave it alone. */
  lemma LaterPassesKeep(e: string, first: nat)
    requires forall i :: 0 <= i < |e| ==> IsEntityChar(e[i])
    ensures first <= 1 ==> ReplaceAll(e, '<', "&lt;") == e
    ensures first <= 2 ==> ReplaceAll(e, '>', "&gt;") == e
    ensures first <= 3 ==> ReplaceAll(e, '"', "&quot;") == e
    ensures ReplaceAll(e, '\'', "&#x27;") == e
  {
    PassKeepsEntity(e, '<', "&lt;");
    PassKeepsEntity(e, '>', "&gt;");
    PassKeepsEntity(e, '"', "&quot;");
    PassKeepsEntity(e, '\'', "&#x27;");
  }

  /** On one character the passes produce its escape. */
  lemma EscapePassesChar(x: char)
    ensures EscapePasses([x]) == EscapeChar(x)
  {
    ReplaceAllOne(x, '&', "&amp;");
    var a := ReplaceAll([x], '&', "&amp;");
    if x == '&' {
      LaterPassesKeep("&amp;", 1);
      return;
    }
    ReplaceAllOne(x, '<', "&lt;");
    var b := ReplaceAll(a, '<', "&lt;");
    if x == '<' {
      LaterPassesKeep("&lt;", 2);
      return;
    }
    ReplaceAllOne(x, '>', "&gt;");
    var c := ReplaceAll(b, '>', "&gt;");
    if x == '>' {
      LaterPassesKeep("&gt;", 3);
      return;
    }
    ReplaceAllOne(x, '"', "&quot;");
    var d := ReplaceAll(c, '"', "&quot;");
    if x == '"' {
      LaterPassesKeep("&quot;", 4);
      return;
    }
    ReplaceAllOne(x, '\'', "&#x27;");
  }

  /** Running the passes one after another escapes every character exactly once:
      the `&` pass comes first, so no later pass's `&` is escaped again. */
  lemma {:induction false} EscapePassesIsEscape(s: string)
    ensures EscapePasses(s) == Escape(s)
  {
    if s != [] {
      assert s == [s[0]] + s[1..];
      EscapePassesConcat([s[0]], s[1..]);
      EscapePassesChar(s[0]);
      EscapePassesIsEscape(s[1..]);
    }
  }

  /** The characters sanitizeHTML removes from the text. */
  predicate IsMarkup(c: char) {
    c == '<' || c == '>' || c == '"' || c == '\''
  }

  lemma EscapeCharHasNoMarkup(x: char)
    ensures forall i :: 0 <= i < |EscapeChar(x)| ==> !IsMarkup(EscapeChar(x)[i])
  {
    if IsMarkup(x) || x == '&' {
      assert forall i :: 0 <= i < |EscapeChar(x)| ==> IsEntityChar(EscapeChar(x)[i]);
    }
  }

  lemma {:induction false} EscapeHasNoMarkup(s: string)
    ensures forall i :: 0 <= i < |Escape(s)| ==> !IsMarkup(Escape(s)[i])
  {
    if s != [] {
      EscapeHasNoMarkup(s[1..]);
      EscapeCharHasNoMarkup(s[0]);
      var e, t := EscapeChar(s[0]), Escape(s[1..]);
      assert forall i :: |e| <= i < |e + t| ==> (e + t)[i] == t[i - |e|];
    }
  }

  /** The entity t starts with, if any: the character it stands for and its length. */
  function DecodeEntity(t: string): (r: Option<(char, nat)>)
    ensures r.Some? ==> 1 <= r.value.1 <= |t|
  {
    if |t| == 0 || t[0] != '&' then None
    else if StartsWith(t, "&amp;") then Some(('&', 5))
    else if StartsWith(t, "&lt;") then Some(('<', 4))
    else if StartsWith(t, "&gt;") then Some(('>', 4))
    else if StartsWith(t, "&quot;") then Some(('"', 6))
    else if StartsWith(t, "&#x27;") then Some(('\'', 6))
    else None
  }

  /** Decodes the five entities that sanitizeHTML produces. */
  function Unescape(t: string): string
    decreases |t|
  {
    if t == [] then []
    else match DecodeEntity(t)
      case Some((c, n)) => [c] + Unescape(t[n..])
      case None => [t[0]] + Unescape(t[1..])
  }

  /** sanitizeHTML loses nothing: decoding its output gives back the input. */
  lemma {:induction false} UnescapeSanitizeHTML(s: string)
    ensures Unescape(SanitizeHTML(Str(s))) == s
  {
    EscapePassesIsEscape(s);
    UnescapeEscape(s);
  }

  lemma {:induction false} UnescapeEscape(s: string)
    ensures Unescape(Escape(s)) == s
  {
    if s != [] {
      UnescapeEscape(s[1..]);
      UnescapeStep(s[0], Escape(s[1..]));
      assert s == [s[0]] + s[1..];
    }
  }

  /** Decoding an escaped character consumes exactly its escape. */
  lemma UnescapeStep(x: char, rest: string)
    ensures Unescape(EscapeChar(x) + rest) == [x] + Unescape(rest)
  {
    var e := EscapeChar(x);
    var t := e + rest;
    DecodeEscapeChar(x, rest);
    assert t[|e|..] == rest;
  }

  lemma DecodeEscapeChar(x: char, rest: string)
    ensures var e := EscapeChar(x);
      DecodeEntity(e + rest) == if |e| == 1 then None else Some((x, |e|))
  {
    var e := EscapeChar(x);
    var t := e + rest;
    assert t[..|e|] == e;
    assert t[0] == e[0];
    if x == '<' {
      NotStartsWith(t, "&amp;", 1);
    } else if x == '>' {
      NotStartsWith(t, "&amp;", 1);
      NotStartsWith(t, "&lt;", 1);
    } else if x == '"' {
      NotStartsWith(t, "&amp;", 1);
      NotStartsWith(t, "&lt;", 1);
      NotStartsWith(t, "&gt;", 1);
    } else if x == '\'' {
      NotStartsWith(t, "&amp;", 1);
      NotStartsWith(t, "&lt;", 1);
      NotStartsWith(t, "&gt;", 1);
      NotStartsWith(t, "&quot;", 1);
    }
  }

  /** A string that differs from p at position i does not start with p. */
  lemma NotStartsWith(t: string, p: string, i: nat)
    requires i < |p| && i < |t| && t[i] != p[i]
    ensures !StartsWith(t, p)
  {
    assert |p| <= |t| ==> t[..|p|][i] == t[i];
  }

  // ---------------------------------------------------------------------------
  // isValidUploadPath

  /** `[a-zA-Z0-9\-_.]`. */
  predicate IsNameChar(c: char) {
    'a' <= c <= 'z' || 'A' <= c <= 'Z' || '0' <= c <= '9' || c == '-' || c == '_' || c == '.'
  }

  /** `/^[a-zA-Z0-9\-_.]+$/`. */
  predicate IsSafeName(f: string) {
    |f| >= 1 && forall i :: 0 <= i < |f| ==> IsNameChar(f[i])
  }

  /** The path lies under one of the four public upload directories. */
  predicate HasUploadPrefix(p: string) {
    || StartsWith(p, "/uploads/images/")
    || StartsWith(p, "/uploads/videos/")
    || StartsWith(p, "/uploads/pdfs/")
    || StartsWith(p, "/uploads/documents/")
  }

  /** `isValidUploadPath(filePath)`: a string under one of the upload
      directories, without ".." or "//", whose last segment is a non-empty
      run of letters, digits, '-', '_' and '.'. */
  predicate IsValidUploadPath(v: Value) {
    && v.Str?
    && StartsWith(v.s, "/uploads/")
    && HasUploadPrefix(v.s)
    && !Contains(v.s, "..")
    && !Contains(v.s, "//")
    && IsSafeName(LastPart(v.s, '/'))
  }

  /** Part k of parts, the pieces of `s.slice(from).split(d)`, sits in s right
      after position j: j is from - 1 for the first part and a separator
      otherwise, and every part but the last is followed by a separator. */
  predicate PartAt(s: string, d: char, from: nat, parts: seq<string>, k: nat, j: int)
    requires k < |parts|
  {
    && from - 1 <= j < |s| && (j >= from ==> s[j] == d) && (k == 0 <==> j == from - 1)
    && OccursAt(s, parts[k], j + 1)
    && (k < |parts| - 1 ==> j + 1 + |parts[k]| < |s| && s[j + 1 + |parts[k]|] == d)
  }

  /** Where each part of `s.slice(from).split(d)` sits in s. */
  lemma {:induction false} SplitPartPosition(s: string, d: char, from: nat, k: nat) returns (j: int)
    requires from <= |s| && k < |SplitFrom(s, d, from)|
    ensures PartAt(s, d, from, SplitFrom(s, d, from), k, j)
    decreases |s| - from
  {
    if k == 0 {
      j := from - 1;
      FirstPartAt(s, d, from);
    } else {
      var i := SplitStep(s, d, from);
      j := SplitPartPosition(s, d, i + 1, k - 1);
      ShiftPartAt(s, d, from, i, SplitFrom(s, d, from), SplitFrom(s, d, i + 1), k, j);
    }
  }

  lemma FirstPartAt(s: string, d: char, from: nat)
    requires from <= |s|
    ensures PartAt(s, d, from, SplitFrom(s, d, from), 0, from - 1)
  {
    var i := FindFrom(s, d, from);
    if i >= 0 {
      assert SplitFrom(s, d, from)[0] == s[from..i];
    } else {
      assert SplitFrom(s, d, from)[0] == s[from..];
    }
  }

  /** A split with more than one part found a separator at i. */
  lemma SplitStep(s: string, d: char, from: nat) returns (i: nat)
    requires from <= |s| && |SplitFrom(s, d, from)| > 1
    ensures from <= i < |s| && s[i] == d
    ensures SplitFrom(s, d, from) == [s[from..i]] + SplitFrom(s, d, i + 1)
  {
    i := FindFrom(s, d, from);
  }

  lemma ShiftPartAt(s: string, d: char, from: nat, i: nat, parts: seq<string>, tail: seq<string>, k: nat, j: int)
    requires from <= i < |s| && s[i] == d
    requires 1 <= k < |parts| && parts == [s[from..i]] + tail
    requires PartAt(s, d, i + 1, tail, k - 1, j)
    ensures PartAt(s, d, from, parts, k, j)
  {
    assert parts[k] == tail[k - 1];
  }

  /** isValidUploadPath in terms of adjacent characters: ".." and "//" are
      absent exactly when no '.' follows a '.' and no '/' follows a '/'. */
  lemma UploadPathByPairs(p: string)
    ensures IsValidUploadPath(Str(p)) <==>
      && StartsWith(p, "/uploads/") && HasUploadPrefix(p)
      && NoPair(p, '.', '.') && NoPair(p, '/', '/')
      && IsSafeName(LastPart(p, '/'))
  {
    NoPairNotContains(p, '.', '.');
    NoPairNotContains(p, '/', '/');
  }

  /** A ".." anywhere in a path makes it invalid. */
  lemma DotPairBreaksUploadPath(p: string, i: nat)
    requires i + 1 < |p| && p[i] == '.' && p[i + 1] == '.'
    ensures !IsValidUploadPath(Str(p))
  {
    UploadPathByPairs(p);
    assert !NoPair(p, '.', '.');
  }

  /** Appending to a string keeps its upload-directory prefix. */
  lemma UploadPrefixKept(d: string, r: string)
    requires StartsWith(d, "/uploads/") && HasUploadPrefix(d)
    ensures StartsWith(d + r, "/uploads/") && HasUploadPrefix(d + r)
  {
    PrefixKept(d, r, "/uploads/");
    PrefixKept(d, r, "/uploads/images/");
    PrefixKept(d, r, "/uploads/videos/");
    PrefixKept(d, r, "/uploads/pdfs/");
    PrefixKept(d, r, "/uploads/documents/");
  }

  lemma PrefixKept(d: string, r: string, p: string)
    ensures StartsWith(d, p) ==> StartsWith(d + r, p)
  {
    if StartsWith(d, p) {
      assert (d + r)[..|p|] == d[..|p|];
    }
  }

  /** A path accepted by isValidUploadPath cannot leave its directory: after the
      leading "/" every segment is non-empty and none is "..". */
  lemma UploadPathHasNoTraversal(p: string)
    requires IsValidUploadPath(Str(p))
    ensures var parts := Split(p, '/');
      forall k :: 1 <= k < |parts| ==> parts[k] != "" && parts[k] != ".."
  {
    var parts := Split(p, '/');
    forall k | 1 <= k < |parts|
      ensures parts[k] != "" && parts[k] != ".."
    {
      SegmentIsProper(p, k);
    }
  }

  lemma SegmentIsProper(p: string, k: nat)
    requires !Contains(p, "..") && !Contains(p, "//") && IsSafeName(LastPart(p, '/'))
    requires 1 <= k < |Split(p, '/')|
    ensures Split(p, '/')[k] != "" && Split(p, '/')[k] != ".."
  {
    var parts := Split(p, '/');
    var j := SplitPartPosition(p, '/', 0, k);
    assert PartAt(p, '/', 0, parts, k, j);
    assert !OccursAt(p, "..", j + 1);
    if k < |parts| - 1 {
      assert !OccursAt(p, "//", j);
      assert p[j..j + 2] != "//";
    }
  }

  // ---------------------------------------------------------------------------
  // isValidUUID

  /** The UUID regular expression: 8-4-4-4-12 hex digits, version nibble 4 and
      variant nibble 8, 9, a or b, in either case. */
  predicate IsUuidShape(s: string) {
    && |s| == 36
    && s[8] == '-' && s[13] == '-' && s[18] == '-' && s[23] == '-'
    && s[14] == '4'
    && s[19] in "89abAB"
    && forall i :: 0 <= i < 36 && i != 8 && i != 13 && i != 18 && i != 23 ==> IsHexDigit(s[i])
  }

  /** `isValidUUID(id)`. */
  function IsValidUUID(v: Value): (ok: bool)
    ensures !v.Str? ==> !ok
    ensures v.Str? && StartsWith(v.s, "sample-") ==> ok
    ensures ok && !StartsWith(v.s, "sample-") ==> IsUuidShape(v.s)
    ensures v.Str? && !StartsWith(v.s, "sample-") && !IsUuidShape(v.s) ==> !ok
  {
    v.Str? && (IsUuidShape(v.s) || StartsWith(v.s, "sample-"))
  }

  /** The text form of a version-4 UUID built from 16 random bytes, the way
      uuid's v4 generator sets the version and variant bits. */
  function FormatUuidV4(bytes: seq<Byte>): string
    requires |bytes| == 16
  {
    var b := bytes[6 := 0x40 + bytes[6] % 16][8 := 0x80 + bytes[8] % 64];
    var h := HexEncode(b);
    h[..8] + "-" + h[8..12] + "-" + h[12..16] + "-" + h[16..20] + "-" + h[20..]
  }

  /** Every identifier createProject can hand out is accepted by isValidUUID. */
  lemma GeneratedIdsAreValid(bytes: seq<Byte>)
    requires |bytes| == 16
    ensures IsValidUUID(Str(FormatUuidV4(bytes)))
  {
    var b := bytes[6 := 0x40 + bytes[6] % 16][8 := 0x80 + bytes[8] % 64];
    var h := HexEncode(b);
    var u := FormatUuidV4(bytes);
    assert h[12] == DigitChar(b[6] / 16);
    assert b[6] / 16 == 4;
    assert u[14] == h[12];
    assert h[16] == DigitChar(b[8] / 16);
    assert 8 <= b[8] / 16 <= 11;
    assert u[19] == h[16];
    assert u[19] in "89abAB";
    forall i | 0 <= i < 36 && i != 8 && i != 13 && i != 18 && i != 23
      ensures IsHexDigit(u[i])
    {
      if i < 8 { assert u[i] == h[i]; }
      else if i < 13 { assert u[i] == h[i - 1]; }
      else if i < 18 { assert u[i] == h[i - 2]; }
      else if i < 23 { assert u[i] == h[i - 3]; }
      else { assert u[i] == h[i - 4]; }
    }
    assert IsUuidShape(u);
  }

  /** A hex digit as crypto.randomUUID writes it: lower case. */
  predicate IsLowerHexDigit(c: char) {
    IsDecimalDigit(c) || 'a' <= c <= 'f'
  }

  /** The value of a lower-case hex digit. */
  function HexValue(c: char): (d: nat)
    requires IsLowerHexDigit(c)
    ensures d < 16 && DigitChar(d) == c
  {
    if IsDecimalDigit(c) then c as int - '0' as int else c as int - 'a' as int + 10
  }

  /** The 32 hex digits of a UUID-shaped string, without its hyphens. */
  function UuidHex(s: string): (h: string)
    requires |s| == 36
    ensures |h| == 32
    ensures forall j :: 0 <= j < 8 ==> h[j] == s[j]
    ensures forall j :: 8 <= j < 12 ==> h[j] == s[j + 1]
    ensures forall j :: 12 <= j < 16 ==> h[j] == s[j + 2]
    ensures forall j :: 16 <= j < 20 ==> h[j] == s[j + 3]
    ensures forall j :: 20 <= j < 32 ==> h[j] == s[j + 4]
  {
    s[..8] + s[9..13] + s[14..18] + s[19..23] + s[24..]
  }

  /** An accepted identifier written in lower case. */
  predicate IsLowerUuid(s: string) {
    IsUuidShape(s) && forall i :: 0 <= i < |s| ==> !('A' <= s[i] <= 'F')
  }

  /** Every character of h is a lower-case hex digit. */
  predicate AllLowerHex(h: string) {
    forall i :: 0 <= i < |h| ==> IsLowerHexDigit(h[i])
  }

  /** The bytes a string of lower-case hex digit pairs spells out, the
      inverse of HexEncode. */
  function HexDecode(h: string): (b: seq<Byte>)
    requires |h| % 2 == 0 && AllLowerHex(h)
    ensures |b| == |h| / 2
  {
    if h == [] then [] else [HexValue(h[0]) * 16 + HexValue(h[1])] + HexDecode(h[2..])
  }

  /** Byte k of the decoding is digit pair k. */
  lemma {:induction false} HexDecodeAt(h: string, k: nat)
    requires |h| % 2 == 0 && AllLowerHex(h) && k < |h| / 2
    ensures HexDecode(h)[k] == HexValue(h[2 * k]) * 16 + HexValue(h[2 * k + 1])
  {
    if k > 0 {
      HexDecodeAt(h[2..], k - 1);
      assert h[2..][2 * (k - 1)] == h[2 * k] && h[2..][2 * (k - 1) + 1] == h[2 * k + 1];
    }
  }

  /** A byte built from two nibbles splits back into them. */
  lemma NibblesSplit(hi: nat, lo: nat, x: nat)
    requires hi < 16 && lo < 16 && x == hi * 16 + lo
    ensures x / 16 == hi && x % 16 == lo
  {
  }

  /** The byte two digits spell out is written with those two digits. */
  lemma PairEncodes(c0: char, c1: char, x: nat)
    requires IsLowerHexDigit(c0) && IsLowerHexDigit(c1)
    requires x == HexValue(c0) * 16 + HexValue(c1)
    ensures DigitChar(x / 16) == c0 && DigitChar(x % 16) == c1
  {
    var hi, lo := HexValue(c0), HexValue(c1);
    NibblesSplit(hi, lo, x);
    assert DigitChar(hi) == c0 && DigitChar(lo) == c1;
  }

  /** Hex-encoding the decoded bytes gives back the digits. */
  lemma {:induction false} HexEncodeDecode(h: string)
    requires |h| % 2 == 0 && AllLowerHex(h)
    ensures HexEncode(HexDecode(h)) == h
  {
    if h != [] {
      var rest := h[2..];
      assert AllLowerHex(rest) by {
        forall i | 0 <= i < |rest| ensures IsLowerHexDigit(rest[i]) {
          assert rest[i] == h[i + 2];
        }
      }
      HexEncodeDecode(rest);
      var b := HexDecode(h);
      var x := b[0];
      assert x == HexValue(h[0]) * 16 + HexValue(h[1]) && b[1..] == HexDecode(rest);
      PairEncodes(h[0], h[1], x);
      assert HexEncode(b) == [DigitChar(x / 16), DigitChar(x % 16)] + HexEncode(b[1..]);
      assert h == [h[0], h[1]] + rest;
    }
  }

  /** The digits of a lower-case identifier are lower-case hex digits. */
  lemma UuidHexIsLower(s: string)
    requires IsLowerUuid(s)
    ensures AllLowerHex(UuidHex(s))
  {
    var h := UuidHex(s);
    forall j | 0 <= j < 32
      ensures IsLowerHexDigit(h[j])
    {
      if j < 8 { assert h[j] == s[j]; }
      else if j < 12 { assert h[j] == s[j + 1]; }
      else if j < 16 { assert h[j] == s[j + 2]; }
      else if j < 20 { assert h[j] == s[j + 3]; }
      else { assert h[j] == s[j + 4]; }
    }
  }

  /** The 16 bytes a lower-case UUID-shaped string spells out. */
  function UuidBytes(s: string): (b: seq<Byte>)
    requires IsLowerUuid(s)
    ensures |b| == 16
  {
    UuidHexIsLower(s);
    HexDecode(UuidHex(s))
  }

  /** Hex-encoding the spelled-out bytes gives back the digits. */
  lemma UuidBytesEncode(s: string)
    requires IsLowerUuid(s)
    ensures HexEncode(UuidBytes(s)) == UuidHex(s)
  {
    UuidHexIsLower(s);
    HexEncodeDecode(UuidHex(s));
  }

  /** The version and variant digits of an accepted identifier already hold
      the bits FormatUuidV4 sets, so setting them changes no byte. */
  lemma UuidBytesKeepVersion(s: string)
    requires IsLowerUuid(s)
    ensures var b := UuidBytes(s);
      b[6 := 0x40 + b[6] % 16][8 := 0x80 + b[8] % 64] == b
  {
    var h := UuidHex(s);
    var b := UuidBytes(s);
    assert h[12] == s[14] == '4' && h[16] == s[19];
    UuidHexIsLower(s);
    HexDecodeAt(h, 6);
    HexDecodeAt(h, 8);
    var lo6, hi8, lo8 := HexValue(h[13]), HexValue(h[16]), HexValue(h[17]);
    assert b[6] == 4 * 16 + lo6 && b[8] == hi8 * 16 + lo8;
    assert 8 <= hi8 <= 11 by {
      assert s[19] in "89ab";
    }
    VersionBitsSet(b);
  }

  /** Bytes whose version and variant bits are already set are left as they
      are by setting them. */
  lemma VersionBitsSet(b: seq<Byte>)
    requires |b| == 16 && 0x40 <= b[6] < 0x50 && 0x80 <= b[8] < 0xC0
    ensures b[6 := 0x40 + b[6] % 16][8 := 0x80 + b[8] % 64] == b
  {
    assert 0x40 + b[6] % 16 == b[6];
    assert 0x80 + b[8] % 64 == b[8];
  }

  /** Putting the hyphens back between the digit groups gives the string. */
  lemma UuidReassembles(s: string)
    requires |s| == 36 && s[8] == '-' && s[13] == '-' && s[18] == '-' && s[23] == '-'
    ensures var h := UuidHex(s);
      h[..8] + "-" + h[8..12] + "-" + h[12..16] + "-" + h[16..20] + "-" + h[20..] == s
  {
    var h := UuidHex(s);
    assert h[..8] == s[..8];
    assert h[8..12] == s[9..13];
    assert h[12..16] == s[14..18];
    assert h[16..20] == s[19..23];
    assert h[20..] == s[24..];
    assert s == s[..8] + "-" + s[9..13] + "-" + s[14..18] + "-" + s[19..23] + "-" + s[24..];
  }

  /** Every lower-case identifier isValidUUID accepts as a UUID is one that
      FormatUuidV4 produces: the one from the bytes it spells out. With
      GeneratedIdsAreValid, the accepted lower-case UUIDs are exactly the
      generated ones. */
  lemma AcceptedUuidsAreGenerated(s: string)
    requires IsLowerUuid(s)
    ensures IsValidUUID(Str(s))
    ensures FormatUuidV4(UuidBytes(s)) == s
  {
    UuidBytesEncode(s);
    UuidBytesKeepVersion(s);
    UuidReassembles(s);
  }

  // ---------------------------------------------------------------------------
  // validateProjectData

  const ValidTools: seq<string> := ["Power BI", "Tableau", "Excel"]
  const ValidStatuses: seq<string> := ["published", "draft"]

  const TitleRequired := "Title is required"
  const TitleEmpty := "Title cannot be empty"
  const ToolInvalid := "Tool must be one of: Power BI, Tableau, Excel"
  const StatusInvalid := "Status must be published or draft"
  const OrderInvalid := "Order must be a number"
  const TagsNotArray := "Tags must be an array"
  const ImagesNotArray := "Images must be an array"
  const DocumentsNotArray := "Documents must be an array"
  const VideoInvalid := "Invalid video path"
  const PdfInvalid := "Invalid PDF path"
  const ThumbnailInvalid := "Invalid thumbnail path"

  /** What one field check contributes: its error messages and the value it
      stores in the sanitized object, if it stores one. */
  datatype Checked<T> = Checked(errors: seq<string>, value: Option<T>)

  /** The sanitized object, one slot per key the validator may set; None is a
      key it leaves unset. */
  datatype Payload = Payload(
    title: Option<string>,
    description: string,
    tool: Option<string>,
    status: Option<string>,
    order: Option<int>,
    tags: Option<seq<string>>,
    images: Option<seq<string>>,
    documents: Option<seq<string>>,
    video: Option<Value>,
    pdf: Option<Value>,
    thumbnail: Option<Value>)

  datatype Validated = Validated(valid: bool, errors: seq<string>, sanitized: Payload)

  function CheckTitle(data: Object): (c: Checked<string>)
    ensures c.errors == [] ==> c.value.Some? && 1 <= |c.value.value| <= 200
  {
    var v := Get(data, "title");
    if !Truthy(v) || !v.Str? then Checked([TitleRequired], None)
    else
      var t := SanitizeString(v, 200);
      Checked(if |t| < 1 then [TitleEmpty] else [], Some(t))
  }

  function CheckDescription(data: Object): string {
    var v := Get(data, "description");
    if v != Undefined then SanitizeString(v, 5000) else ""
  }

  function CheckTool(data: Object): (c: Checked<string>)
    ensures c.errors == [] <==> c.value.Some?
    ensures c.value.Some? ==> c.value.value in ValidTools
  {
    var v := Get(data, "tool");
    if !Truthy(v) || !(v.Str? && v.s in ValidTools) then Checked([ToolInvalid], None)
    else Checked([], Some(v.s))
  }

  function CheckStatus(data: Object): (c: Checked<string>)
    ensures c.errors == [] <==> c.value.Some?
    ensures c.value.Some? ==> c.value.value in ValidStatuses
  {
    var v := Get(data, "status");
    if v == Undefined then Checked([], Some("published"))
    else if v.Str? && v.s in ValidStatuses then Checked([], Some(v.s))
    else Checked([StatusInvalid], None)
  }

  function CheckOrder(data: Object): Checked<int> {
    var v := Get(data, "order");
    if v == Undefined then Checked([], None)
    else match ParseIntValue(v, false)
      case None => Checked([OrderInvalid], None)
      case Some(n) => Checked([], Some(n))
  }

  /** One tag: kept, sanitised to 50 characters, when it is a string that does
      not sanitise to "". */
  function CleanTag(v: Value): (r: seq<string>)
    ensures |r| <= 1
    ensures forall i :: 0 <= i < |r| ==> 1 <= |r[i]| <= 50
  {
    var t := SanitizeString(v, 50);
    if v.Str? && t != "" then [t] else []
  }

  function CleanTags(items: seq<Value>): (r: seq<string>)
    ensures forall i :: 0 <= i < |r| ==> 1 <= |r[i]| <= 50
  {
    if items == [] then [] else CleanTag(items[0]) + CleanTags(items[1..])
  }

  function CheckTags(data: Object): (c: Checked<seq<string>>)
    ensures c.value.Some? ==> |c.value.value| <= 20
    ensures c.value.Some? ==> forall i :: 0 <= i < |c.value.value| ==> 1 <= |c.value.value[i]| <= 50
  {
    var v := Get(data, "tags");
    if v == Undefined then Checked([], Some([]))
    else if !v.Arr? then Checked([TagsNotArray], None)
    else Checked([], Some(Take(CleanTags(v.items), 20)))
  }

  /** One element of an images or documents list: kept when it is a valid
      upload path. */
  function CleanPath(v: Value): (r: seq<string>)
    ensures |r| <= 1
    ensures forall i :: 0 <= i < |r| ==> IsValidUploadPath(Str(r[i]))
  {
    if IsValidUploadPath(v) then [v.s] else []
  }

  function CleanPaths(items: seq<Value>): (r: seq<string>)
    ensures forall i :: 0 <= i < |r| ==> IsValidUploadPath(Str(r[i]))
  {
    if items == [] then [] else CleanPath(items[0]) + CleanPaths(items[1..])
  }

  function CheckPathList(data: Object, key: string, cap: nat, notArray: string): (c: Checked<seq<string>>)
    ensures c.value.Some? ==> |c.value.value| <= cap
    ensures c.value.Some? ==> forall i :: 0 <= i < |c.value.value| ==> IsValidUploadPath(Str(c.value.value[i]))
  {
    var v := Get(data, key);
    if v == Undefined then Checked([], Some([]))
    else if !v.Arr? then Checked([notArray], None)
    else Checked([], Some(Take(CleanPaths(v.items), cap)))
  }

  function CheckPath(data: Object, key: string, invalid: string): Checked<Value> {
    var v := Get(data, key);
    if IsNullish(v) then Checked([], Some(Null))
    else if !IsValidUploadPath(v) then Checked([invalid], None)
    else Checked([], Some(v))
  }

  // An independent statement of when each field is acceptable.

  predicate TitleOk(data: Object) {
    var v := Get(data, "title");
    v.Str? && SanitizeString(v, 200) != ""
  }

  predicate ToolOk(data: Object) {
    var v := Get(data, "tool");
    v == Str("Power BI") || v == Str("Tableau") || v == Str("Excel")
  }

  predicate StatusOk(data: Object) {
    var v := Get(data, "status");
    v == Undefined || v == Str("published") || v == Str("draft")
  }

  predicate OrderOk(data: Object) {
    var v := Get(data, "order");
    v == Undefined || ParseIntValue(v, false).Some?
  }

  predicate ListOk(data: Object, key: string) {
    var v := Get(data, key);
    v == Undefined || v.Arr?
  }

  predicate PathOk(data: Object, key: string) {
    var v := Get(data, key);
    IsNullish(v) || IsValidUploadPath(v)
  }

  /** The payloads the validator accepts. */
  predicate AcceptablePayload(data: Object) {
    && TitleOk(data)
    && ToolOk(data)
    && StatusOk(data)
    && OrderOk(data)
    && ListOk(data, "tags") && ListOk(data, "images") && ListOk(data, "documents")
    && PathOk(data, "video") && PathOk(data, "pdf") && PathOk(data, "thumbnail")
  }

  /** `validateProjectData(data)`: every field is checked, in the source's order,
      each failed check adds its message, and the payload is valid exactly when
      none failed. */
  function ValidateProjectData(data: Object): (r: Validated)
    ensures r.valid <==> r.errors == []
    ensures r.valid <==> AcceptablePayload(data)
    ensures !(Get(data, "title").Str? && Get(data, "title").s != "") ==> TitleRequired in r.errors
    ensures !ToolOk(data) ==> ToolInvalid in r.errors
  {
    var title := CheckTitle(data);
    var tool := CheckTool(data);
    var status := CheckStatus(data);
    var order := CheckOrder(data);
    var tags := CheckTags(data);
    var images := CheckPathList(data, "images", 50, ImagesNotArray);
    var documents := CheckPathList(data, "documents", 20, DocumentsNotArray);
    var video := CheckPath(data, "video", VideoInvalid);
    var pdf := CheckPath(data, "pdf", PdfInvalid);
    var thumbnail := CheckPath(data, "thumbnail", ThumbnailInvalid);
    var errors := title.errors + tool.errors + status.errors + order.errors + tags.errors
      + images.errors + documents.errors + video.errors + pdf.errors + thumbnail.errors;
    ScalarChecks(data);
    ListChecks(data);
    PathChecks(data);
    Validated(|errors| == 0, errors,
      Payload(title.value, CheckDescription(data), tool.value, status.value, order.value, tags.value,
              images.value, documents.value, video.value, pdf.value, thumbnail.value))
  }

  lemma ScalarChecks(data: Object)
    ensures CheckTitle(data).errors == [] <==> TitleOk(data)
    ensures !(Get(data, "title").Str? && Get(data, "title").s != "") ==> CheckTitle(data).errors == [TitleRequired]
    ensures CheckTool(data).errors == [] <==> ToolOk(data)
    ensures !ToolOk(data) ==> CheckTool(data).errors == [ToolInvalid]
    ensures CheckStatus(data).errors == [] <==> StatusOk(data)
    ensures CheckOrder(data).errors == [] <==> OrderOk(data)
  {
    TitleChecks(data);
    ToolChecks(data);
    StatusOrderChecks(data);
  }

  lemma StatusOrderChecks(data: Object)
    ensures CheckStatus(data).errors == [] <==> StatusOk(data)
    ensures CheckOrder(data).errors == [] <==> OrderOk(data)
  {
  }

  lemma TitleChecks(data: Object)
    ensures CheckTitle(data).errors == [] <==> TitleOk(data)
    ensures !(Get(data, "title").Str? && Get(data, "title").s != "") ==> CheckTitle(data).errors == [TitleRequired]
  {
    if Get(data, "title") == Str("") {
      SanitizeEmpty(200);
    }
  }

  lemma SanitizeEmpty(n: nat)
    ensures SanitizeString(Str(""), n) == ""
  {
    assert TrimStart("") == "";
    assert TrimEnd("") == "";
    assert Trim("") == "";
    assert RemoveChar("", '\0') == "";
    assert CollapseSpaces("") == "";
    assert |Take("", n)| == 0;
  }

  lemma ToolChecks(data: Object)
    ensures CheckTool(data).errors == [] <==> ToolOk(data)
    ensures !ToolOk(data) ==> CheckTool(data).errors == [ToolInvalid]
  {
  }

  lemma ListChecks(data: Object)
    ensures CheckTags(data).errors == [] <==> ListOk(data, "tags")
    ensures CheckPathList(data, "images", 50, ImagesNotArray).errors == [] <==> ListOk(data, "images")
    ensures CheckPathList(data, "documents", 20, DocumentsNotArray).errors == [] <==> ListOk(data, "documents")
  {
  }

  lemma PathChecks(data: Object)
    ensures CheckPath(data, "video", VideoInvalid).errors == [] <==> PathOk(data, "video")
    ensures CheckPath(data, "pdf", PdfInvalid).errors == [] <==> PathOk(data, "pdf")
    ensures CheckPath(data, "thumbnail", ThumbnailInvalid).errors == [] <==> PathOk(data, "thumbnail")
  {
  }

  /** Omitted optional fields get their defaults. */
  lemma ValidateDefaults(data: Object)
    ensures var p := ValidateProjectData(data).sanitized;
      && (Get(data, "description") == Undefined ==> p.description == "")
      && (Get(data, "status") == Undefined ==> p.status == Some("published"))
      && (Get(data, "order") == Undefined ==> p.order == None)
      && (Get(data, "tags") == Undefined ==> p.tags == Some([]))
      && (Get(data, "images") == Undefined ==> p.images == Some([]))
      && (Get(data, "documents") == Undefined ==> p.documents == Some([]))
      && (IsNullish(Get(data, "video")) ==> p.video == Some(Null))
      && (IsNullish(Get(data, "pdf")) ==> p.pdf == Some(Null))
      && (IsNullish(Get(data, "thumbnail")) ==> p.thumbnail == Some(Null))
  {
  }

  /** The caps: at most 20 non-empty tags of at most 50 characters, at most 50
      images and 20 documents, all of them valid upload paths; the title and
      description are cut to 200 and 5000 characters. */
  lemma ValidateCaps(data: Object)
    ensures var p := ValidateProjectData(data).sanitized;
      && (p.title.Some? ==> |p.title.value| <= 200)
      && |p.description| <= 5000
      && (p.tags.Some? ==> |p.tags.value| <= 20 && forall t :: t in p.tags.value ==> 1 <= |t| <= 50)
      && (p.images.Some? ==>
            |p.images.value| <= 50 && forall q :: q in p.images.value ==> IsValidUploadPath(Str(q)))
      && (p.documents.Some? ==>
            |p.documents.value| <= 20 && forall q :: q in p.documents.value ==> IsValidUploadPath(Str(q)))
  {
  }

  /** An accepted payload yields a complete record: a non-empty title, a
      supported tool and a known status. */
  lemma ValidatedRecordIsComplete(data: Object)
    requires ValidateProjectData(data).valid
    ensures var p := ValidateProjectData(data).sanitized;
      && p.title.Some? && |p.title.value| >= 1
      && p.tool.Some? && p.tool.value in ValidTools
      && p.status.Some? && p.status.value in ValidStatuses
  {
    ScalarChecks(data);
  }

  /** The sanitized object as the JavaScript object the route spreads into the
      stored record. */
  function PayloadObject(p: Payload): (o: Object)
    ensures "description" in o && o["description"] == Str(p.description)
    ensures p.title.Some? <==> "title" in o
    ensures p.title.Some? ==> o["title"] == Str(p.title.value)
    ensures p.tool.Some? <==> "tool" in o
    ensures p.tool.Some? ==> o["tool"] == Str(p.tool.value)
    ensures p.status.Some? <==> "status" in o
    ensures p.status.Some? ==> o["status"] == Str(p.status.value)
    ensures p.order.Some? <==> "order" in o
    ensures p.order.Some? ==> o["order"] == Num(p.order.value)
    ensures p.tags.Some? <==> "tags" in o
    ensures p.images.Some? <==> "images" in o
    ensures p.documents.Some? <==> "documents" in o
    ensures p.video.Some? <==> "video" in o
    ensures p.pdf.Some? <==> "pdf" in o
    ensures p.thumbnail.Some? <==> "thumbnail" in o
    ensures forall k :: k in o ==> k in PayloadKeys
  {
    map k | k in PayloadKeys && Slot(p, k).Some? :: Slot(p, k).value
  }

  /** The list fields hold their kept strings in order, and the media
      fields hold the values the checks let through. */
  lemma PayloadObjectLists(p: Payload)
    ensures p.tags.Some? ==> PayloadObject(p)["tags"] == Arr(StrValues(p.tags.value))
    ensures p.images.Some? ==> PayloadObject(p)["images"] == Arr(StrValues(p.images.value))
    ensures p.documents.Some? ==> PayloadObject(p)["documents"] == Arr(StrValues(p.documents.value))
    ensures p.video.Some? ==> PayloadObject(p)["video"] == p.video.value
    ensures p.pdf.Some? ==> PayloadObject(p)["pdf"] == p.pdf.value
    ensures p.thumbnail.Some? ==> PayloadObject(p)["thumbnail"] == p.thumbnail.value
  {
  }

  const PayloadKeys: set<string> :=
    {"title", "description", "tool", "status", "order", "tags", "images", "documents", "video", "pdf", "thumbnail"}

  /** The value the sanitized object holds under key k. */
  function Slot(p: Payload, k: string): Option<Value> {
    if k == "title" then (if p.title.Some? then Some(Str(p.title.value)) else None)
    else if k == "description" then Some(Str(p.description))
    else if k == "tool" then (if p.tool.Some? then Some(Str(p.tool.value)) else None)
    else if k == "status" then (if p.status.Some? then Some(Str(p.status.value)) else None)
    else if k == "order" then (if p.order.Some? then Some(Num(p.order.value)) else None)
    else if k == "tags" then (if p.tags.Some? then Some(Arr(StrValues(p.tags.value))) else None)
    else if k == "images" then (if p.images.Some? then Some(Arr(StrValues(p.images.value))) else None)
    else if k == "documents" then (if p.documents.Some? then Some(Arr(StrValues(p.documents.value))) else None)
    else if k == "video" then p.video
    else if k == "pdf" then p.pdf
    else if k == "thumbnail" then p.thumbnail
    else None
  }

  function StrValues(ss: seq<string>): (r: seq<Value>)
    ensures |r| == |ss|
    ensures forall i :: 0 <= i < |ss| ==> r[i] == Str(ss[i])
  {
    seq(|ss|, i requires 0 <= i < |ss| => Str(ss[i]))
  }
}
