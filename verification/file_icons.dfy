/**
 * The icon the document list shows beside a file: the text after the last
 * `.` of the file name (`split('.').pop()`), lower-cased, looked up in a
 * fixed table of four icons.
 *
 * Lower-casing is modelled on ASCII letters.  JavaScript's `toLowerCase` also
 * lower-cases other letters, but the only ones it turns into ASCII letters
 * are U+212A (into `k`) and U+0130 (into `i` and a combining dot); neither
 * letter occurs in the table, so the icon chosen is the same.
 */
module FileIcons {

  // ---------------------------------------------------------------------------
  // Splitting at dots and taking the last piece
  // ---------------------------------------------------------------------------

  /** `s.split('.')`: the pieces between the dots, never an empty list. */
  function Split(s: string): (parts: seq<string>)
    ensures |parts| >= 1
  {
    if s == [] then [[]]
    else
      var rest := Split(s[1..]);
      if s[0] == '.' then [[]] + rest
      else [[s[0]] + rest[0]] + rest[1..]
  }

  /** No piece of the split holds a dot. */
  predicate DotFree(parts: seq<string>) {
    forall k :: 0 <= k < |parts| ==> '.' !in parts[k]
  }

  lemma {:induction false} SplitPiecesDotFree(s: string)
    ensures DotFree(Split(s))
  {
    if s != [] {
      SplitPiecesDotFree(s[1..]);
    }
  }

  /** `parts.join('.')`. */
  function Join(parts: seq<string>): (s: string)
    requires |parts| >= 1
  {
    if |parts| == 1 then parts[0] else parts[0] + "." + Join(parts[1..])
  }

  /** Joining the pieces again gives the name back. */
  lemma {:induction false} JoinSplit(s: string)
    ensures Join(Split(s)) == s
  {
    if s != [] {
      var rest := Split(s[1..]);
      JoinSplit(s[1..]);
      if s[0] == '.' {
        assert ([[]] + rest)[1..] == rest;
      } else if |rest| == 1 {
        assert Join(Split(s)) == [s[0]] + rest[0];
      } else {
        var parts := [[s[0]] + rest[0]] + rest[1..];
        assert parts[1..] == rest[1..];
        assert Join(rest) == rest[0] + "." + Join(rest[1..]);
      }
    }
  }

  /**
   * The extension of a file name as the icon rule reads it: the last piece
   * of the split (`pop()`), so the whole name when it has no dot.
   */
  function Extension(filename: string): (ext: string)
    ensures '.' !in ext
  {
    var parts := Split(filename);
    SplitPiecesDotFree(filename);
    parts[|parts| - 1]
  }

  /**
   * `e` is the tail of `s` after its last dot: a dot-free suffix of `s` that
   * is either all of `s` or comes right after a dot.
   */
  predicate IsTailAfterLastDot(e: string, s: string) {
    && |e| <= |s|
    && s[|s| - |e|..] == e
    && '.' !in e
    && (|e| == |s| || s[|s| - |e| - 1] == '.')
  }

  /** The last of dot-free pieces is the tail after the last dot of their join. */
  lemma {:induction false} LastPieceIsTail(parts: seq<string>, s: string)
    requires |parts| >= 1 && DotFree(parts) && Join(parts) == s
    ensures IsTailAfterLastDot(parts[|parts| - 1], s)
  {
    if |parts| > 1 {
      var e, tail := parts[|parts| - 1], Join(parts[1..]);
      LastPieceIsTail(parts[1..], tail);
      assert s == parts[0] + "." + tail;
      assert s[|s| - |e|..] == tail[|tail| - |e|..];
      if |e| == |tail| {
        assert s[|s| - |e| - 1] == '.';
      } else {
        assert s[|s| - |e| - 1] == tail[|tail| - |e| - 1];
      }
    }
  }

  /** There is only one tail after the last dot. */
  lemma TailAfterLastDotUnique(s: string, e1: string, e2: string)
    requires IsTailAfterLastDot(e1, s) && IsTailAfterLastDot(e2, s)
    ensures e1 == e2
  {
  }

  /** The extension is exactly the tail after the last dot. */
  lemma ExtensionIsTail(filename: string)
    ensures IsTailAfterLastDot(Extension(filename), filename)
  {
    LastPieceOfSplit(filename, Split(filename));
  }

  lemma LastPieceOfSplit(filename: string, parts: seq<string>)
    requires parts == Split(filename)
    ensures IsTailAfterLastDot(parts[|parts| - 1], filename)
  {
    JoinSplit(filename);
    SplitPiecesDotFree(filename);
    LastPieceIsTail(parts, filename);
  }

  /** Any dot-free tail that follows a dot, or is the whole name, is the extension. */
  lemma TailIsExtension(filename: string, e: string)
    requires IsTailAfterLastDot(e, filename)
    ensures Extension(filename) == e
  {
    ExtensionIsTail(filename);
    TailAfterLastDotUnique(filename, e, Extension(filename));
  }

  /** A name without a dot is its own extension. */
  lemma NoDotMeansWholeName(filename: string)
    requires '.' !in filename
    ensures Extension(filename) == filename
  {
    assert filename[0..] == filename;
    TailIsExtension(filename, filename);
  }

  /** A name ending in a dot has the empty extension. */
  lemma TrailingDotMeansEmptyExtension(filename: string)
    requires |filename| > 0 && filename[|filename| - 1] == '.'
    ensures Extension(filename) == ""
  {
    TailIsExtension(filename, "");
  }

  // ---------------------------------------------------------------------------
  // Lower-casing
  // ---------------------------------------------------------------------------

  predicate IsUpper(c: char) {
    'A' <= c <= 'Z'
  }

  function LowerChar(c: char): (d: char)
    ensures !IsUpper(d)
    ensures d == '.' <==> c == '.'
  {
    if IsUpper(c) then (c as int + 32) as char else c
  }

  /** `toLowerCase()`: every upper-case letter replaced by its lower-case one, in place. */
  function ToLower(s: string): (r: string)
    ensures |r| == |s|
    ensures forall i :: 0 <= i < |s| ==> r[i] == LowerChar(s[i])
  {
    if s == [] then [] else [LowerChar(s[0])] + ToLower(s[1..])
  }

  /** Lower-casing keeps every dot where it was, so it commutes with taking the extension. */
  lemma ExtensionOfLower(filename: string)
    ensures Extension(ToLower(filename)) == ToLower(Extension(filename))
  {
    var e := Extension(filename);
    ExtensionIsTail(filename);
    var s, le := ToLower(filename), ToLower(e);
    assert s[|s| - |le|..] == le by {
      forall i | 0 <= i < |le| ensures s[|s| - |le|..][i] == le[i] {
        assert filename[|filename| - |e|..][i] == e[i];
      }
    }
    assert '.' !in le by {
      forall i | 0 <= i < |le| ensures le[i] != '.' {
        assert e[i] in e;
      }
    }
    TailIsExtension(s, le);
  }

  // ---------------------------------------------------------------------------
  // The icon table
  // ---------------------------------------------------------------------------

  const PageGlyph: string := "\U{1F4C4}"
  const PictureGlyph: string := "\U{1F5BC}\U{FE0F}"
  const MemoGlyph: string := "\U{1F4DD}"
  const ClipGlyph: string := "\U{1F4CE}"

  /**
   * The `switch` on the lower-cased extension: one of the four icons, and
   * the paper clip exactly for the extensions the table does not list.
   */
  function IconFor(ext: string): (glyph: string)
    ensures glyph in {PageGlyph, PictureGlyph, MemoGlyph, ClipGlyph}
    ensures glyph == ClipGlyph <==> ext !in {"pdf", "jpg", "jpeg", "png", "doc", "docx"}
  {
    assert PageGlyph[0] != ClipGlyph[0] && PictureGlyph[0] != ClipGlyph[0] && MemoGlyph[0] != ClipGlyph[0];
    match ext
    case "pdf" => PageGlyph
    case "jpg" => PictureGlyph
    case "jpeg" => PictureGlyph
    case "png" => PictureGlyph
    case "doc" => MemoGlyph
    case "docx" => MemoGlyph
    case _ => ClipGlyph
  }

  /**
   * The icon for a file name: a page for `pdf`, a picture for `jpg`, `jpeg`
   * and `png`, a memo for `doc` and `docx`, and a paper clip for every other
   * extension, the extension read case-insensitively.
   */
  function GetFileIcon(filename: string): (glyph: string)
    ensures glyph == PageGlyph <==> ToLower(Extension(filename)) == "pdf"
    ensures glyph == PictureGlyph <==> ToLower(Extension(filename)) in {"jpg", "jpeg", "png"}
    ensures glyph == MemoGlyph <==> ToLower(Extension(filename)) in {"doc", "docx"}
    ensures glyph == ClipGlyph <==>
      ToLower(Extension(filename)) !in {"pdf", "jpg", "jpeg", "png", "doc", "docx"}
  {
    assert PageGlyph[0] != PictureGlyph[0] && PageGlyph[0] != MemoGlyph[0] && PageGlyph[0] != ClipGlyph[0];
    assert PictureGlyph[0] != MemoGlyph[0] && PictureGlyph[0] != ClipGlyph[0] && MemoGlyph[0] != ClipGlyph[0];
    IconFor(ToLower(Extension(filename)))
  }

  /** Two names that agree up to the case of their letters get the same icon. */
  lemma IconIgnoresCase(a: string, b: string)
    requires ToLower(a) == ToLower(b)
    ensures GetFileIcon(a) == GetFileIcon(b)
  {
    ExtensionOfLower(a);
    ExtensionOfLower(b);
  }

  /** A name ending in a dot gets the paper clip. */
  lemma TrailingDotGetsClip(filename: string)
    requires |filename| > 0 && filename[|filename| - 1] == '.'
    ensures GetFileIcon(filename) == ClipGlyph
  {
    TrailingDotMeansEmptyExtension(filename);
  }

  /** The icon of a name is the table's entry for its lower-cased tail after the last dot. */
  lemma IconOfTail(filename: string, e: string)
    requires IsTailAfterLastDot(e, filename)
    ensures GetFileIcon(filename) == IconFor(ToLower(e))
  {
    TailIsExtension(filename, e);
  }

  /** A dot-free name is classified as a whole: `PDF` alone gets the page icon. */
  lemma DotFreeNameIsItsOwnExtension(filename: string)
    requires '.' !in filename
    ensures GetFileIcon(filename) == IconFor(ToLower(filename))
  {
    assert filename[0..] == filename;
    IconOfTail(filename, filename);
  }

  /**
   * Only what follows the last dot counts: `scan.pdf.docx` gets the memo
   * icon and `report.pdf.gz` the paper clip, whatever comes before.
   */
  lemma LastExtensionDecides(stem: string, ext: string)
    requires '.' !in ext
    ensures GetFileIcon(stem + "." + ext) == IconFor(ToLower(ext))
  {
    var filename := stem + "." + ext;
    assert filename[|filename| - |ext|..] == ext;
    assert filename[|filename| - |ext| - 1] == '.';
    IconOfTail(filename, ext);
  }
}
