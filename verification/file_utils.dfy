/**
 * File-type classification of a material's URL, and the icon and colour
 * shown for each type. `toLowerCase` is modelled on ASCII letters.
 */
module FileUtils {

  datatype FileType = Docx | Pdf | Pptx | Png | Jpg | Jpeg | Py | Unknown

  /** The string tag of each file type, as the client spells it. */
  function TagName(t: FileType): string {
    match t
    case Docx => "docx"
    case Pdf => "pdf"
    case Pptx => "pptx"
    case Png => "png"
    case Jpg => "jpg"
    case Jpeg => "jpeg"
    case Py => "py"
    case Unknown => "unknown"
  }

  predicate IsUpper(c: char) { 'A' <= c <= 'Z' }

  function LowerChar(c: char): char {
    if IsUpper(c) then (c as int - 'A' as int + 'a' as int) as char else c
  }

  /** `toLowerCase` on ASCII: each upper-case letter becomes its lower-case letter. */
  function Lower(s: string): string {
    seq(|s|, i requires 0 <= i < |s| => LowerChar(s[i]))
  }

  /** Lower-casing leaves no upper-case letter, so doing it twice changes nothing. */
  lemma LowerIdempotent(s: string)
    ensures forall i :: 0 <= i < |Lower(s)| ==> !IsUpper(Lower(s)[i])
    ensures Lower(Lower(s)) == Lower(s)
  {
  }

  lemma LowerConcat(a: string, b: string)
    ensures Lower(a + b) == Lower(a) + Lower(b)
  {
  }

  /** A string with no upper-case letter is its own lower case. */
  lemma LowerOfLower(s: string)
    requires forall i :: 0 <= i < |s| ==> !IsUpper(s[i])
    ensures Lower(s) == s
  {
  }

  /**
   * `String.prototype.split` on a one-character separator: the pieces
   * between separators, at least one, none containing the separator.
   */
  function Split(s: string, sep: char): (r: seq<string>)
    ensures |r| >= 1
    ensures forall k :: 0 <= k < |r| ==> sep !in r[k]
  {
    if s == [] then [""]
    else
      var rest := Split(s[1..], sep);
      if s[0] == sep then [""] + rest
      else [[s[0]] + rest[0]] + rest[1..]
  }

  /** `Array.prototype.join`: the pieces with the separator between each two. */
  function Join(parts: seq<string>, sep: char): string {
    if |parts| == 0 then ""
    else if |parts| == 1 then parts[0]
    else parts[0] + [sep] + Join(parts[1..], sep)
  }

  /** Joining the pieces of a split gives back the string. */
  lemma {:induction false} JoinSplit(s: string, sep: char)
    ensures Join(Split(s, sep), sep) == s
  {
    if s != [] {
      var rest := Split(s[1..], sep);
      JoinSplit(s[1..], sep);
      if s[0] == sep {
        assert Split(s, sep) == [""] + rest;
        assert ([""] + rest)[1..] == rest;
      } else {
        var parts := Split(s, sep);
        assert parts == [[s[0]] + rest[0]] + rest[1..];
        if |rest| == 1 {
          assert Join(parts, sep) == [s[0]] + rest[0];
        } else {
          assert parts[1..] == rest[1..];
          assert Join(rest, sep) == rest[0] + [sep] + Join(rest[1..], sep);
          assert Join(parts, sep) == [s[0]] + Join(rest, sep);
        }
      }
    }
  }

  /** A string free of the separator is a single piece. */
  lemma {:induction false} SplitSeparatorFree(s: string, sep: char)
    requires sep !in s
    ensures Split(s, sep) == [s]
  {
    if s != [] {
      SplitSeparatorFree(s[1..], sep);
      assert [s[0]] + s[1..] == s;
    }
  }

  /** A separator-free head followed by the separator splits off as the first piece. */
  lemma {:induction false} SplitAfterHead(head: string, sep: char, tail: string)
    requires sep !in head
    ensures Split(head + [sep] + tail, sep) == [head] + Split(tail, sep)
  {
    if head == [] {
      assert head + [sep] + tail == [sep] + tail;
      assert ([sep] + tail)[1..] == tail;
    } else {
      var s := head + [sep] + tail;
      assert s[1..] == head[1..] + [sep] + tail;
      SplitAfterHead(head[1..], sep, tail);
      assert [head[0]] + head[1..] == head;
    }
  }

  /** Splitting undoes joining pieces that are free of the separator. */
  lemma {:induction false} SplitJoin(parts: seq<string>, sep: char)
    requires |parts| >= 1
    requires forall k :: 0 <= k < |parts| ==> sep !in parts[k]
    ensures Split(Join(parts, sep), sep) == parts
  {
    if |parts| == 1 {
      SplitSeparatorFree(parts[0], sep);
    } else {
      SplitJoin(parts[1..], sep);
      SplitAfterHead(parts[0], sep, Join(parts[1..], sep));
      assert [parts[0]] + parts[1..] == parts;
    }
  }

  /** Joining splits off the last piece after the last separator. */
  lemma {:induction false} JoinLast(parts: seq<string>, sep: char)
    requires |parts| >= 2
    ensures Join(parts, sep) == Join(parts[..|parts| - 1], sep) + [sep] + parts[|parts| - 1]
  {
    if |parts| > 2 {
      JoinLast(parts[1..], sep);
      assert parts[1..][..|parts| - 2] == parts[..|parts| - 1][1..];
    }
  }

  /** `url.split('.').pop()`: `pop` is never undefined, since `split` yields at least one piece. */
  function AfterLastDot(s: string): string {
    var parts := Split(s, '.');
    parts[|parts| - 1]
  }

  /** `.split('?')[0]`: the text before the first `?`. */
  function BeforeFirstQuery(s: string): string {
    Split(s, '?')[0]
  }

  /** The extension as the client computes it: lower-case, after the last `.`, cut at the first `?`. */
  function Extension(url: string): string {
    BeforeFirstQuery(AfterLastDot(Lower(url)))
  }

  /**
   * The extension pinned down by position: the lower-cased URL is
   * `p + ext + q`, where `p` is empty or ends in the last `.`, no `.`
   * follows it, `ext` holds no `?`, and `q` is empty or starts at the
   * first `?` after that dot. These four conditions admit one `ext` only.
   */
  lemma ExtensionByPosition(url: string) returns (p: string, q: string)
    ensures Lower(url) == p + Extension(url) + q
    ensures p == [] || p[|p| - 1] == '.'
    ensures '.' !in Extension(url) && '.' !in q
    ensures '?' !in Extension(url)
    ensures q == [] || q[0] == '?'
  {
    var l := Lower(url);
    var parts := Split(l, '.');
    var last := parts[|parts| - 1];
    JoinSplit(l, '.');
    if |parts| == 1 {
      p := [];
    } else {
      JoinLast(parts, '.');
      p := Join(parts[..|parts| - 1], '.') + ['.'];
    }
    assert l == p + last;
    var pieces := Split(last, '?');
    JoinSplit(last, '?');
    if |pieces| == 1 {
      q := [];
    } else {
      q := ['?'] + Join(pieces[1..], '?');
    }
    assert last == pieces[0] + q;
    assert Extension(url) == pieces[0];
    assert l == p + (pieces[0] + q);
  }

  /** `getFileTypeFromUrl` on an extension: `jpg` and `jpeg` share one tag, anything else unlisted is unknown. */
  function Classify(ext: string): FileType {
    if ext == "docx" then Docx
    else if ext == "pdf" then Pdf
    else if ext == "pptx" then Pptx
    else if ext == "png" then Png
    else if ext == "jpg" || ext == "jpeg" then Jpg
    else if ext == "py" then Py
    else Unknown
  }

  const KnownExtensions: set<string> := {"docx", "pdf", "pptx", "png", "jpg", "jpeg", "py"}

  /**
   * `getFileTypeFromUrl`. A known type is named by the extension itself,
   * except that `jpeg` is reported as `jpg`; so `jpeg` never comes out.
   */
  function FileTypeFromUrl(url: string): (r: FileType)
    ensures r != Jpeg
    ensures r == Unknown <==> Extension(url) !in KnownExtensions
    ensures r != Unknown ==> TagName(r) == Extension(url) || (r == Jpg && Extension(url) == "jpeg")
    ensures r == Jpg <==> Extension(url) == "jpg" || Extension(url) == "jpeg"
  {
    Classify(Extension(url))
  }

  /** The classification ignores letter case. */
  lemma CaseInsensitive(url: string)
    ensures FileTypeFromUrl(url) == FileTypeFromUrl(Lower(url))
  {
    LowerIdempotent(url);
  }

  /** `getFileTypeIcon`: images share one icon, and every unlisted tag falls back to the document icon. */
  function Icon(t: FileType): (r: string)
    ensures r == "mdi-file-image" <==> t == Png || t == Jpg
    ensures r == "mdi-file-pdf-box" <==> t == Pdf
    ensures r == "mdi-file-word-box" <==> t == Docx
    ensures r == "mdi-file-powerpoint-box" <==> t == Pptx
    ensures r == "mdi-language-python" <==> t == Py
    ensures r == "mdi-file-document" <==> t == Jpeg || t == Unknown
  {
    match t
    case Pdf => "mdi-file-pdf-box"
    case Docx => "mdi-file-word-box"
    case Pptx => "mdi-file-powerpoint-box"
    case Png | Jpg => "mdi-file-image"
    case Py => "mdi-language-python"
    case _ => "mdi-file-document"
  }

  /** `getFileTypeColor`: slides and Python share `warning`, images share `success`, unlisted tags are `grey`. */
  function Color(t: FileType): (r: string)
    ensures r == "warning" <==> t == Pptx || t == Py
    ensures r == "success" <==> t == Png || t == Jpg
    ensures r == "grey" <==> t == Jpeg || t == Unknown
    ensures r == "error" <==> t == Pdf
    ensures r == "info" <==> t == Docx
  {
    match t
    case Pdf => "error"
    case Docx => "info"
    case Pptx | Py => "warning"
    case Png | Jpg => "success"
    case _ => "grey"
  }

  /**
   * The icon of a URL never comes from the `jpeg` case: a `.jpeg` file
   * gets the image icon, and the document icon means the type is unknown.
   */
  lemma IconOfUrl(url: string)
    ensures Extension(url) == "jpeg" ==> Icon(FileTypeFromUrl(url)) == "mdi-file-image"
    ensures Icon(FileTypeFromUrl(url)) == "mdi-file-document" <==> FileTypeFromUrl(url) == Unknown
    ensures Color(FileTypeFromUrl(url)) == "grey" <==> FileTypeFromUrl(url) == Unknown
  {
  }

  /** A string splits at most one way into `p + ext + q` under the conditions of ExtensionByPosition. */
  lemma PositionSplitUnique(l: string, p: string, e: string, q: string, p2: string, e2: string, q2: string)
    requires l == p + e + q && l == p2 + e2 + q2
    requires p == [] || p[|p| - 1] == '.'
    requires p2 == [] || p2[|p2| - 1] == '.'
    requires '.' !in e && '.' !in q && '.' !in e2 && '.' !in q2
    requires '?' !in e && '?' !in e2
    requires q == [] || q[0] == '?'
    requires q2 == [] || q2[0] == '?'
    ensures e == e2
  {
    DotFreeTail(l, p, e + q, p2, e2 + q2);
    DotFreeTail(l, p2, e2 + q2, p, e + q);
    assert |p| == |p2|;
    assert e + q == l[|p|..] == e2 + q2;
    QueryFreeHead(e + q, e, q, e2, q2);
    QueryFreeHead(e + q, e2, q2, e, q);
    assert |e| == |e2|;
    assert e == (e + q)[..|e|] == e2;
  }

  lemma DotFreeTail(l: string, p: string, t: string, p2: string, t2: string)
    requires l == p + t && l == p2 + t2
    requires p2 == [] || p2[|p2| - 1] == '.'
    requires '.' !in t
    ensures |p2| <= |p|
  {
    forall j | |p| <= j < |l| ensures l[j] != '.' {
      assert l[j] == t[j - |p|];
    }
    if p2 != [] {
      assert l[|p2| - 1] == '.';
    }
  }

  lemma QueryFreeHead(t: string, e: string, q: string, e2: string, q2: string)
    requires t == e + q && t == e2 + q2
    requires '?' !in e2
    requires q == [] || q[0] == '?'
    ensures |e| >= |e2|
  {
    forall j | 0 <= j < |e2| ensures t[j] != '?' {
      assert t[j] == e2[j];
    }
    if q != [] {
      assert t[|e|] == '?';
    }
  }

  /** ExtensionByPosition read backwards: any such split of the lower-cased URL names its extension. */
  lemma ExtensionFromPosition(url: string, p: string, e: string, q: string)
    requires Lower(url) == p + e + q
    requires p == [] || p[|p| - 1] == '.'
    requires '.' !in e && '.' !in q && '?' !in e
    requires q == [] || q[0] == '?'
    ensures Extension(url) == e
  {
    var p2, q2 := ExtensionByPosition(url);
    PositionSplitUnique(Lower(url), p, e, q, p2, Extension(url), q2);
  }

  /** In `x.pdf?dl=1` the extension is `pdf`: the query is cut at the first `?`. */
  lemma QueryAfterExtensionIsCut()
    ensures Extension("x.pdf?dl=1") == "pdf"
    ensures FileTypeFromUrl("x.pdf?dl=1") == Pdf
  {
    var u := "x.pdf?dl=1";
    LowerOfLower(u);
    assert u == "x." + "pdf" + "?dl=1";
    ExtensionFromPosition(u, "x.", "pdf", "?dl=1");
  }

  /**
   * As written, a `.` inside the query string decides the extension:
   * `report.pdf?v=1.2` has extension `2`, so it is classified unknown.
   */
  lemma DottedQueryDecides()
    ensures Extension("report.pdf?v=1.2") == "2"
    ensures FileTypeFromUrl("report.pdf?v=1.2") == Unknown
  {
    var u := "report.pdf?v=1.2";
    LowerOfLower(u);
    assert u == "report.pdf?v=1." + "2" + "";
    ExtensionFromPosition(u, "report.pdf?v=1.", "2", "");
  }

  /** The last piece of a split grows by a separator-free suffix; the number of pieces stays. */
  lemma {:induction false} AfterLastAppend(a: string, b: string, sep: char)
    requires sep !in b
    ensures |Split(a + b, sep)| == |Split(a, sep)|
    ensures Split(a + b, sep)[|Split(a + b, sep)| - 1] == Split(a, sep)[|Split(a, sep)| - 1] + b
  {
    if a == [] {
      assert a + b == b;
      SplitSeparatorFree(b, sep);
    } else {
      assert (a + b)[1..] == a[1..] + b;
      AfterLastAppend(a[1..], b, sep);
    }
  }

  /** Every piece of a split is made of characters of the string. */
  lemma LastPieceWithin(s: string, sep: char, c: char)
    requires c !in s
    ensures c !in Split(s, sep)[|Split(s, sep)| - 1]
  {
    var parts := Split(s, sep);
    JoinSplit(s, sep);
    if |parts| >= 2 {
      JoinLast(parts, sep);
    }
  }

  /** Lower-casing neither creates nor removes a character that is not a letter. */
  lemma LowerKeepsNonLetter(s: string, c: char)
    requires !IsUpper(c) && !('a' <= c <= 'z')
    ensures c in Lower(s) <==> c in s
  {
    if c in Lower(s) {
      var i :| 0 <= i < |Lower(s)| && Lower(s)[i] == c;
      assert LowerChar(s[i]) == c;
    }
    if c in s {
      var i :| 0 <= i < |s| && s[i] == c;
      assert Lower(s)[i] == c;
    }
  }

  /**
   * The evidently intended classification: drop the query first, then
   * take the text after the last `.` of what remains.
   */
  function FileTypeIgnoringQuery(url: string): (r: FileType)
    ensures r != Jpeg
    ensures r == Unknown <==> AfterLastDot(BeforeFirstQuery(Lower(url))) !in KnownExtensions
  {
    Classify(AfterLastDot(BeforeFirstQuery(Lower(url))))
  }

  /** With the corrected order the query string, dotted or not, never changes the type. */
  lemma QueryIgnored(path: string, query: string)
    requires '?' !in path
    ensures FileTypeIgnoringQuery(path + "?" + query) == FileTypeIgnoringQuery(path)
  {
    var lp := Lower(path);
    LowerConcat(path + "?", query);
    LowerConcat(path, "?");
    assert Lower("?") == "?";
    assert Lower(path + "?" + query) == lp + ['?'] + Lower(query);
    LowerKeepsNonLetter(path, '?');
    SplitAfterHead(lp, '?', Lower(query));
    SplitSeparatorFree(lp, '?');
    assert BeforeFirstQuery(Lower(path + "?" + query)) == lp == BeforeFirstQuery(Lower(path));
  }

  /** With the corrected order, a lower-case `stem.ext?query` is classified by `ext`, whatever the query. */
  lemma IgnoringQueryOfParts(stem: string, ext: string, query: string)
    requires '.' !in stem && '?' !in stem && '.' !in ext && '?' !in ext
    requires forall i :: 0 <= i < |stem + "." + ext| ==> !IsUpper((stem + "." + ext)[i])
    ensures FileTypeIgnoringQuery(stem + "." + ext + "?" + query) == Classify(ext)
  {
    var path := stem + "." + ext;
    QueryIgnored(path, query);
    LowerOfLower(path);
    SplitSeparatorFree(path, '?');
    assert path == stem + ['.'] + ext;
    SplitAfterHead(stem, '.', ext);
    SplitSeparatorFree(ext, '.');
  }

  /** With the corrected order, the URL that shows the defect is classified by its path. */
  lemma CorrectedOnDottedQuery()
    ensures FileTypeIgnoringQuery("report.pdf?v=1.2") == Pdf
  {
    assert "report.pdf?v=1.2" == "report" + "." + "pdf" + "?" + "v=1.2";
    IgnoringQueryOfParts("report", "pdf", "v=1.2");
  }

  /** The corrected order agrees with the code as written on every URL whose query holds no `.`. */
  lemma AgreesWithoutDottedQuery(path: string, query: string)
    requires '?' !in path && '.' !in query
    ensures FileTypeFromUrl(path + "?" + query) == FileTypeIgnoringQuery(path + "?" + query)
  {
    var lp, lq := Lower(path), Lower(query);
    LowerConcat(path + "?", query);
    LowerConcat(path, "?");
    assert Lower(path + "?" + query) == lp + ("?" + lq);
    LowerKeepsNonLetter(path, '?');
    LowerKeepsNonLetter(query, '.');
    AfterLastAppend(lp, "?" + lq, '.');
    LastPieceWithin(lp, '.', '?');
    var last := AfterLastDot(lp);
    assert AfterLastDot(lp + ("?" + lq)) == last + "?" + lq;
    SplitAfterHead(last, '?', lq);
    SplitAfterHead(lp, '?', lq);
    assert lp + ("?" + lq) == lp + ['?'] + lq;
  }
}
