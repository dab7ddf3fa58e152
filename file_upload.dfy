/**
 * The audio file accept rule and the first-file forwarding of the upload
 * component (src/components/FileUpload/FileUpload.tsx).
 */
module FileUpload {
  import opened Wrappers

  /** A picked or dropped file: its name and its MIME type. */
  datatype File = File(name: string, mimeType: string)

  const ValidTypes: seq<string> := ["audio/m4a", "audio/mp3", "audio/mp4", "audio/mpeg", "video/mp4"]
  const ValidExtensions: seq<string> := ["m4a", "mp3", "mp4"]

  /** `s.split(sep)`: the pieces between separators, always at least one. */
  function Split(s: string, sep: char): (parts: seq<string>)
    ensures |parts| >= 1
  {
    if |s| == 0 then [""]
    else
      var rest := Split(s[1..], sep);
      if s[0] == sep then [""] + rest
      else [[s[0]] + rest[0]] + rest[1..]
  }

  /** The last piece of `Split(s, sep)`: what `pop()` returns. */
  function LastPiece(s: string, sep: char): string
  {
    var parts := Split(s, sep);
    parts[|parts| - 1]
  }

  /** How the last piece of `s` relates to the last piece of `s[1..]`. */
  lemma LastPieceStep(s: string, sep: char)
    requires |s| > 0
    ensures s[0] == sep ==>
      LastPiece(s, sep) == LastPiece(s[1..], sep) && |Split(s, sep)| > 1
    ensures s[0] != sep && |Split(s[1..], sep)| > 1 ==>
      LastPiece(s, sep) == LastPiece(s[1..], sep) && |Split(s, sep)| > 1
    ensures s[0] != sep && |Split(s[1..], sep)| == 1 ==>
      LastPiece(s, sep) == [s[0]] + LastPiece(s[1..], sep) && |Split(s, sep)| == 1
  {
  }

  /**
   * The last piece is the text after the last separator: a suffix of `s`
   * free of `sep` that is either all of `s` or preceded by `sep`.
   */
  lemma {:induction false} LastPieceIsAfterLastSeparator(s: string, sep: char)
    ensures var e := LastPiece(s, sep);
      |e| <= |s| && e == s[|s| - |e|..] && sep !in e
      && (|e| < |s| ==> s[|s| - |e| - 1] == sep)
      && (|Split(s, sep)| > 1 ==> |e| < |s|)
      && (|Split(s, sep)| == 1 ==> e == s)
  {
    if |s| > 0 {
      var t := s[1..];
      var e := LastPiece(t, sep);
      LastPieceIsAfterLastSeparator(t, sep);
      LastPieceStep(s, sep);
      if s[0] == sep || |Split(t, sep)| > 1 {
        assert s[|s| - |e|..] == t[|t| - |e|..];
        if |e| < |t| {
          assert s[|s| - |e| - 1] == t[|t| - |e| - 1];
        }
      } else {
        assert e == t;
        assert s == [s[0]] + t;
      }
    }
  }

  /** After `stem + "." + ext`, with no dot in `ext`, the last piece is `ext`. */
  lemma LastPieceOfDotted(stem: string, ext: string)
    requires '.' !in ext
    ensures LastPiece(stem + "." + ext, '.') == ext
  {
    var s := stem + "." + ext;
    var e := LastPiece(s, '.');
    LastPieceIsAfterLastSeparator(s, '.');
    assert s[|s| - |ext| - 1] == '.';
    assert s[|s| - |ext|..] == ext;
  }

  /** A name without dots is its own last piece. */
  lemma LastPieceWithoutDot(name: string)
    requires '.' !in name
    ensures LastPiece(name, '.') == name
  {
    var e := LastPiece(name, '.');
    LastPieceIsAfterLastSeparator(name, '.');
  }

  /** `toLowerCase()` on one character (ASCII letters only). */
  function LowerChar(c: char): char
  {
    if IsUpper(c) then (c as int + 32) as char else c
  }

  predicate IsUpper(c: char) { 'A' <= c <= 'Z' }

  /**
   * `toLowerCase()` (ASCII letters only): no upper-case letter is left, each
   * upper-case letter becomes the letter 32 code points above it, and every
   * other character is kept.
   */
  function ToLower(s: string): (r: string)
    ensures |r| == |s|
    ensures forall i :: 0 <= i < |r| ==> !IsUpper(r[i])
    ensures forall i :: 0 <= i < |s| && IsUpper(s[i]) ==> r[i] as int == s[i] as int + 32
    ensures forall i :: 0 <= i < |s| && !IsUpper(s[i]) ==> r[i] == s[i]
  {
    seq(|s|, i requires 0 <= i < |s| => LowerChar(s[i]))
  }

  /** Lowercasing twice is lowercasing once. */
  lemma ToLowerIdempotent(s: string)
    ensures ToLower(ToLower(s)) == ToLower(s)
  {
    var r := ToLower(s);
    assert forall i :: 0 <= i < |r| ==> ToLower(r)[i] == r[i];
  }

  /** The lowercased text after the last dot of the name. */
  function Extension(name: string): string
  {
    ToLower(LastPiece(name, '.'))
  }

  /** `isValidAudioFile`: an accepted MIME type, or an accepted extension. */
  predicate IsValidAudioFile(file: File)
  {
    file.mimeType in ValidTypes || Extension(file.name) in ValidExtensions
  }

  /**
   * For a name `stem.ext`: accepted exactly when the MIME type is listed or
   * the lowercased `ext` is, whatever the stem holds.
   */
  lemma AcceptDotted(stem: string, ext: string, mimeType: string)
    requires '.' !in ext
    ensures IsValidAudioFile(File(stem + "." + ext, mimeType))
      <==> mimeType in ValidTypes || ToLower(ext) in ValidExtensions
  {
    LastPieceOfDotted(stem, ext);
  }

  /** A name without a dot is compared whole, as if it were the extension. */
  lemma AcceptWithoutDot(name: string, mimeType: string)
    requires '.' !in name
    ensures IsValidAudioFile(File(name, mimeType))
      <==> mimeType in ValidTypes || ToLower(name) in ValidExtensions
  {
    LastPieceWithoutDot(name);
  }

  /** A listed MIME type is accepted whatever the name. */
  lemma AcceptListedType(name: string, mimeType: string)
    requires mimeType in ValidTypes
    ensures IsValidAudioFile(File(name, mimeType))
  {
  }

  /** An upper-case extension is accepted like its lower-case form. */
  lemma AcceptUpperCaseExtension(stem: string, mimeType: string)
    ensures IsValidAudioFile(File(stem + ".MP3", mimeType))
  {
    assert stem + ".MP3" == stem + "." + "MP3";
    AcceptDotted(stem, "MP3", mimeType);
    assert ToLower("MP3") == "mp3" == ValidExtensions[1];
  }

  /** A file named `mp4`, with no dot at all, is accepted. */
  lemma AcceptBareExtensionName(mimeType: string)
    ensures IsValidAudioFile(File("mp4", mimeType))
  {
    AcceptWithoutDot("mp4", mimeType);
    assert ToLower("mp4") == "mp4" == ValidExtensions[2];
  }

  /** A name ending in a dot has an empty extension: only the MIME type can accept it. */
  lemma TrailingDotNeedsType(stem: string, mimeType: string)
    ensures IsValidAudioFile(File(stem + ".", mimeType)) <==> mimeType in ValidTypes
  {
    AcceptDotted(stem, "", mimeType);
    assert stem + "." + "" == stem + ".";
  }

  /** The MIME type is compared exactly: upper case does not match. */
  lemma MimeTypeIsCaseSensitive()
    ensures !IsValidAudioFile(File("clip", "AUDIO/MPEG"))
  {
    AcceptWithoutDot("clip", "AUDIO/MPEG");
    assert ToLower("clip") == "clip";
    assert "AUDIO/MPEG" !in ValidTypes by {
      assert "AUDIO/MPEG"[0] != "audio/mpeg"[0];
    }
  }

  /**
   * `handleDrop`: forwards the first dropped file to `onFileSelected` when it
   * is valid, and nothing otherwise; later files are never looked at.
   */
  function HandleDrop(files: seq<File>): (forwarded: Option<File>)
    ensures forwarded != None ==> |files| > 0 && forwarded.value == files[0] && IsValidAudioFile(files[0])
    ensures forwarded == None ==> |files| == 0 || !IsValidAudioFile(files[0])
  {
    if |files| > 0 && IsValidAudioFile(files[0]) then Some(files[0]) else None
  }

  /**
   * `handleFileSelect`: the same rule on the picker's file list, which may
   * be missing altogether.
   */
  function HandleFileSelect(files: Option<seq<File>>): (forwarded: Option<File>)
    ensures files == None ==> forwarded == None
    ensures forwarded != None ==>
      files != None && |files.value| > 0 && forwarded.value == files.value[0] && IsValidAudioFile(files.value[0])
    ensures files != None && |files.value| > 0 && IsValidAudioFile(files.value[0]) ==> forwarded == Some(files.value[0])
  {
    match files
    case None => None
    case Some(list) => if |list| > 0 && IsValidAudioFile(list[0]) then Some(list[0]) else None
  }
}
