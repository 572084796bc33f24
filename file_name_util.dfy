/** FileNameUtil: file names built from free text, with the ASCII punctuation that file systems
    and shells mistreat removed and the length capped. */
module FileNameUtil {
  import opened Jdk
  import AT = ArtistsTitle

  /** The character class FILE_NAME_REGEX, `[!"#$%&'()*+,\-/:;<=>?@\[\]^_`{|}~]`: ASCII
      punctuation except `.` and `\`. */
  predicate Forbidden(c: char)
    ensures Forbidden(c) <==> ('!' <= c <= '~' && c != '.' && c != '\\'
                               && !('0' <= c <= '9') && !('A' <= c <= 'Z') && !('a' <= c <= 'z'))
  {
    c == '!' || c == '"' || c == '#' || c == '$' || c == '%' || c == '&' || c == '\'' || c == '('
    || c == ')' || c == '*' || c == '+' || c == ',' || c == '-' || c == '/' || c == ':' || c == ';'
    || c == '<' || c == '=' || c == '>' || c == '?' || c == '@' || c == '[' || c == ']' || c == '^'
    || c == '_' || c == '`' || c == '{' || c == '|' || c == '}' || c == '~'
  }

  /** `s.replaceAll(FILE_NAME_REGEX, "")`: every forbidden character deleted, the others kept in order. */
  function Strip(s: string): (r: string)
    ensures |r| <= |s|
    ensures forall k :: 0 <= k < |r| ==> !Forbidden(r[k])
    decreases |s|
  {
    if s == [] then []
    else if Forbidden(s[|s| - 1]) then Strip(s[..|s| - 1])
    else Strip(s[..|s| - 1]) + [s[|s| - 1]]
  }

  /** Stripping works piece by piece. */
  lemma {:induction false} StripAppend(a: string, b: string)
    ensures Strip(a + b) == Strip(a) + Strip(b)
    decreases |b|
  {
    if b == [] {
      assert a + b == a;
    } else {
      var b' := b[..|b| - 1];
      assert (a + b)[..|a + b| - 1] == a + b';
      StripAppend(a, b');
    }
  }

  /** A string with no forbidden character is left as it is; in particular stripping twice is stripping once. */
  lemma {:induction false} StripAllowed(s: string)
    requires forall k :: 0 <= k < |s| ==> !Forbidden(s[k])
    ensures Strip(s) == s
    decreases |s|
  {
    if s != [] {
      StripAllowed(s[..|s| - 1]);
    }
  }

  /** One character is dropped exactly when it is forbidden. With StripAppend this says that
      every other character, `.` and `\` among them, survives in its original order. */
  lemma StripOne(c: char)
    ensures Strip([c]) == (if Forbidden(c) then [] else [c])
  {
    assert [c][..0] == [];
  }

  /** Stripping twice is stripping once. */
  lemma StripIdempotent(s: string)
    ensures Strip(Strip(s)) == Strip(s)
  {
    StripAllowed(Strip(s));
  }

  /** commons-lang `StringUtils.substring(s, 0, end)` on a non-null string: a negative end
      counts back from the end of the string, and the end is capped at the length. */
  function Substring0(s: string, end: int): (r: string)
    ensures |r| <= |s| && r == s[..|r|]
    ensures 0 <= end ==> |r| == if end < |s| then end else |s|
    ensures end < 0 ==> |r| == if |s| + end < 0 then 0 else |s| + end
  {
    var e := if end < 0 then |s| + end else end;
    var e' := if e > |s| then |s| else e;
    if e' < 0 then "" else s[..e']
  }

  /** `getFileName(str, maxLengthWithoutExtension, extension)`: the stripped text truncated to
      the maximum, then the extension (printed as "null" when it is null). A null text is
      dereferenced and throws. */
  function GetFileName(str: Nullable<string>, maxLengthWithoutExtension: Int32, extension: Nullable<string>): (r: Exit<string>)
    ensures str.Null? <==> r == Throw(NullPointerException)
  {
    match str
    case Null => Throw(NullPointerException)
    case NonNull(s) => Return(Substring0(Strip(s), maxLengthWithoutExtension) + ValueOf(extension))
  }

  /** The file name ends with the extension; the part before it has no forbidden character, is
      a prefix of the stripped text, and for a non-negative maximum is as long as the maximum
      allows. */
  lemma GetFileNameShape(str: string, maxLengthWithoutExtension: Int32, extension: Nullable<string>)
    ensures var v := GetFileName(NonNull(str), maxLengthWithoutExtension, extension).value;
            var n := |v| - |ValueOf(extension)|;
            0 <= n && v[n..] == ValueOf(extension)
            && v[..n] == Strip(str)[..n]
            && (forall k :: 0 <= k < n ==> !Forbidden(v[k]))
            && (0 <= maxLengthWithoutExtension ==>
                  n == if maxLengthWithoutExtension < |Strip(str)| then maxLengthWithoutExtension else |Strip(str)|)
  {
    var name := Substring0(Strip(str), maxLengthWithoutExtension);
    var v := name + ValueOf(extension);
    assert GetFileName(NonNull(str), maxLengthWithoutExtension, extension).value == v;
    assert v[..|name|] == name;
    assert v[|name|..] == ValueOf(extension);
  }

  /** The name getMp3FileName builds from a present artists and title. */
  function Mp3FileName(artists: string, title: string): (name: string)
    ensures |name| >= 7 && name[|name| - 4..] == ".mp3"
  {
    Substring0(Strip(Trim(artists)), 40) + " - " + Substring0(Strip(Trim(title)), 50) + ".mp3"
  }

  /** The mp3 file name is at most 40 + 3 + 50 + 4 = 97 characters and ends with ".mp3"; the
      artists and title parts carry no forbidden character. */
  lemma Mp3FileNameShape(artists: string, title: string)
    ensures var v := Mp3FileName(artists, title);
            var a := Substring0(Strip(Trim(artists)), 40);
            var t := Substring0(Strip(Trim(title)), 50);
            |v| <= 97 && v[|v| - 4..] == ".mp3"
            && |a| <= 40 && |t| <= 50
            && v[..|a|] == a && v[|a|..|a| + 3] == " - " && v[|a| + 3..|a| + 3 + |t|] == t
            && (forall k :: 0 <= k < |a| ==> !Forbidden(a[k]))
            && (forall k :: 0 <= k < |t| ==> !Forbidden(t[k]))
  {
    var a := Substring0(Strip(Trim(artists)), 40);
    var t := Substring0(Strip(Trim(title)), 50);
    CutKeepsClean(Strip(Trim(artists)), 40);
    CutKeepsClean(Strip(Trim(title)), 50);
    JoinedLayout(a, t);
  }

  /** A cut of a string without forbidden characters has none either. */
  lemma CutKeepsClean(s: string, end: int)
    requires forall k :: 0 <= k < |s| ==> !Forbidden(s[k])
    ensures var r := Substring0(s, end); forall k :: 0 <= k < |r| ==> !Forbidden(r[k])
  {
    var r := Substring0(s, end);
    assert forall k :: 0 <= k < |r| ==> r[k] == s[k];
  }

  /** Where the parts of `a + " - " + t + ".mp3"` lie. */
  lemma JoinedLayout(a: string, t: string)
    ensures var v := a + " - " + t + ".mp3";
            |v| == |a| + |t| + 7 && v[|v| - 4..] == ".mp3"
            && v[..|a|] == a && v[|a|..|a| + 3] == " - " && v[|a| + 3..|a| + 3 + |t|] == t
  {
    var head := a + " - ";
    var v := head + t + ".mp3";
    assert v[..|a|] == head[..|a|] == a;
    assert v[|a|..|a| + 3] == head[|a|..] == " - ";
  }

  /** `getMp3FileName(artistsTitle)`: the trimmed and stripped artists cut to 40 characters,
      " - ", the trimmed and stripped title cut to 50, and ".mp3", appended one after another to
      a StringBuilder. Trimming a null artists or title throws. */
  method GetMp3FileName(artistsTitle: AT.ArtistsTitle) returns (r: Exit<string>)
    ensures artistsTitle.artists.Null? || artistsTitle.title.Null? <==> r == Throw(NullPointerException)
    ensures r.Return? ==> r.value == Mp3FileName(artistsTitle.artists.value, artistsTitle.title.value)
    ensures r.Return? ==> |r.value| <= 97
  {
    if artistsTitle.artists.Null? || artistsTitle.title.Null? {
      return Throw(NullPointerException);
    }
    var formattedArtist := Strip(Trim(artistsTitle.artists.value));
    var formattedTitle := Strip(Trim(artistsTitle.title.value));
    var sb: string := [];
    sb := sb + Substring0(formattedArtist, 40);
    sb := sb + " - ";
    sb := sb + Substring0(formattedTitle, 50);
    sb := sb + ".mp3";
    assert sb == Mp3FileName(artistsTitle.artists.value, artistsTitle.title.value);
    Mp3FileNameShape(artistsTitle.artists.value, artistsTitle.title.value);
    r := Return(sb);
  }
}
