/** ArtistsTitle: a track's artists and title, both trimmed, and the parser that splits a query
    such as "Artist - Title" into the two, first with the pattern

        ^((\W*\s*)|(#\d*;?.?))?(?<artists>[A-Z].*)(\s*)( - )(\s*)(?<title>.*)$

    under java.util.regex semantics (`matches()`, greedy quantifiers, backtracking), and
    otherwise with a split on the first '-' or on spaces. */
module ArtistsTitle {
  import opened Jdk

  /** A parsed track. Both fields are references that may be null. */
  datatype ArtistsTitle = ArtistsTitle(artists: Nullable<string>, title: Nullable<string>)

  /** `safeTrim`: trim a present string, keep null as null. */
  function SafeTrim(s: Nullable<string>): (r: Nullable<string>)
    ensures r.Null? <==> s.Null?
    ensures s.NonNull? ==> r.value == Trim(s.value)
  {
    match s
    case Null => Null
    case NonNull(v) => NonNull(Trim(v))
  }

  /** safeTrim's result needs no further trimming. */
  lemma SafeTrimTrimmed(s: Nullable<string>)
    ensures SafeTrim(s).NonNull? ==> Trim(SafeTrim(s).value) == SafeTrim(s).value
  {
    if s.NonNull? {
      TrimIdempotent(s.value);
    }
  }

  /** Both present fields are already trimmed. */
  predicate Trimmed(at: ArtistsTitle) {
    (at.artists.NonNull? ==> Trim(at.artists.value) == at.artists.value)
    && (at.title.NonNull? ==> Trim(at.title.value) == at.title.value)
  }

  /** `of(artists, title)` and the constructor: the fields are stored trimmed, null stays null. */
  function Of(artists: Nullable<string>, title: Nullable<string>): (at: ArtistsTitle)
    ensures at.artists == SafeTrim(artists) && at.title == SafeTrim(title)
    ensures Trimmed(at)
  {
    SafeTrimTrimmed(artists);
    SafeTrimTrimmed(title);
    ArtistsTitle(SafeTrim(artists), SafeTrim(title))
  }

  /** `toString()`: artists, " - ", title, where a null field prints as "null". */
  function ToString(at: ArtistsTitle): (s: string)
    ensures |s| == |ValueOf(at.artists)| + 3 + |ValueOf(at.title)|
  {
    ValueOf(at.artists) + " - " + ValueOf(at.title)
  }

  // ---------------------------------------------------------------------------
  // The character classes of the pattern (java.util.regex defaults: ASCII classes)

  /** `\w`: [a-zA-Z_0-9]. */
  predicate IsWord(c: char) {
    'a' <= c <= 'z' || 'A' <= c <= 'Z' || '0' <= c <= '9' || c == '_'
  }

  /** `\s`: [ \t\n\x0B\f\r]. */
  predicate IsSpace(c: char) {
    c == ' ' || c == '\t' || c == '\n' || c == '\U{B}' || c == '\U{C}' || c == '\r'
  }

  /** `\d`: [0-9]. */
  predicate IsDigit(c: char) {
    '0' <= c <= '9'
  }

  /** `[A-Z]`. */
  predicate IsUpper(c: char) {
    'A' <= c <= 'Z'
  }

  /** The line terminators that `.` does not match. */
  predicate IsLineTerminator(c: char) {
    c == '\n' || c == '\r' || c == '\U{85}' || c == '\U{2028}' || c == '\U{2029}'
  }

  /** The classes the pattern repeats: `\W`, `\s`, `\d` and `.`. */
  datatype CharClass = NonWord | Space | Digit | Dot

  predicate InClass(k: CharClass, c: char) {
    match k
    case NonWord => !IsWord(c)
    case Space => IsSpace(c)
    case Digit => IsDigit(c)
    case Dot => !IsLineTerminator(c)
  }

  /** Every character of s[i..j] is in class `k`. */
  predicate AllIn(s: string, i: nat, j: nat, k: CharClass)
    requires i <= j <= |s|
  {
    forall m :: i <= m < j ==> InClass(k, s[m])
  }

  /** A range inside a range of class `k` is of class `k`. */
  lemma AllInWithin(s: string, i: nat, j: nat, i': nat, j': nat, k: CharClass)
    requires i <= i' <= j' <= j <= |s| && AllIn(s, i, j, k)
    ensures AllIn(s, i', j', k)
  {
  }

  /** Where a greedy `k*` starting at `i` stops: the end of the longest run of class `k`. */
  function RunEnd(s: string, i: nat, k: CharClass): (j: nat)
    requires i <= |s|
    ensures i <= j <= |s|
    ensures AllIn(s, i, j, k)
    ensures j < |s| ==> !InClass(k, s[j])
    decreases |s| - i
  {
    if i == |s| || !InClass(k, s[i]) then i else RunEnd(s, i + 1, k)
  }

  /** A run of class `k` covering [i, b) makes the greedy run reach at least `b`. */
  lemma RunEndCovers(s: string, i: nat, b: nat, k: CharClass)
    requires i <= b <= |s|
    requires AllIn(s, i, b, k)
    ensures RunEnd(s, i, k) >= b
  {
  }

  // ---------------------------------------------------------------------------
  // What the pattern accepts

  /** The positions of the named groups in a match: `artists` is s[start..artistsEnd], the
      " - " begins at `dash`, and `title` is s[titleStart..]. */
  datatype Groups = Groups(start: nat, artistsEnd: nat, dash: nat, titleStart: nat)

  /** `#\d*;?.?` matches s[i..end] (the part after the '#'). */
  predicate HashTail(s: string, i: nat, end: nat)
    requires i <= end <= |s|
    decreases end - i
  {
    i == end
    || (end == i + 1 && (s[i] == ';' || !IsLineTerminator(s[i])))
    || (end == i + 2 && s[i] == ';' && !IsLineTerminator(s[i + 1]))
    || (IsDigit(s[i]) && HashTail(s, i + 1, end))
  }

  /** The optional group `((\W*\s*)|(#\d*;?.?))?` matches s[..start]. Since every `\s`
      character is a `\W` character, `\W*\s*` matches exactly the strings of non-word characters. */
  predicate PrefixOk(s: string, start: nat)
    requires start <= |s|
  {
    AllIn(s, 0, start, NonWord)
    || (1 <= start && s[0] == '#' && HashTail(s, 1, start))
  }

  /** `(?<artists>[A-Z].*)(\s*)( - )(\s*)(?<title>.*)$` matches s[g.start..] with these groups. */
  predicate BodyFits(s: string, g: Groups) {
    g.start < g.artistsEnd <= g.dash && g.dash + 3 <= g.titleStart <= |s|
    && IsUpper(s[g.start])
    && AllIn(s, g.start + 1, g.artistsEnd, Dot)
    && AllIn(s, g.artistsEnd, g.dash, Space)
    && s[g.dash] == ' ' && s[g.dash + 1] == '-' && s[g.dash + 2] == ' '
    && AllIn(s, g.dash + 3, g.titleStart, Space)
    && AllIn(s, g.titleStart, |s|, Dot)
  }

  /** The whole pattern matches `s` with groups `g`. */
  predicate Fits(s: string, g: Groups) {
    BodyFits(s, g) && PrefixOk(s, g.start)
  }

  // ---------------------------------------------------------------------------
  // The matcher: Java's backtracking order, one quantifier at a time

  /** With the artists group ending at `e`, the rest `(\s*)( - )(\s*)(.*)$` can match. The first
      `\s*` can only give back its last character, which must be the space of " - "; the second
      `\s*` keeps its longest run, since giving characters back to `.*` cannot remove a line terminator. */
  predicate DashAfter(s: string, e: nat)
    requires e <= |s|
    ensures DashAfter(s, e) ==>
              var q := RunEnd(s, e, Space);
              e < q && q + 1 < |s| && AllIn(s, e, q - 1, Space) && s[q - 1..q + 2] == " - "
              && var t := RunEnd(s, q + 2, Space);
                 AllIn(s, q + 2, t, Space) && AllIn(s, t, |s|, Dot)
  {
    var q := RunEnd(s, e, Space);
    q > e && q + 1 < |s| && s[q - 1] == ' ' && s[q] == '-' && s[q + 1] == ' '
    && RunEnd(s, RunEnd(s, q + 2, Space), Dot) == |s|
  }

  /** The greedy `.*` of the artists group backs off from `e` one character at a time: the
      largest end in (p, e] after which the rest matches. */
  function LastArtistsEnd(s: string, p: nat, e: nat): (r: Optional<nat>)
    requires p <= e <= |s|
    ensures r.Of? ==> p < r.value <= e && DashAfter(s, r.value)
    ensures r.Of? ==> forall e' :: r.value < e' <= e ==> !DashAfter(s, e')
    ensures r.Empty? ==> forall e' :: p < e' <= e ==> !DashAfter(s, e')
    decreases e
  {
    if e == p then Empty else if DashAfter(s, e) then Optional.Of(e) else LastArtistsEnd(s, p, e - 1)
  }

  /** The first match of the part after the optional group, when that group ends at `p`. */
  function MatchAt(s: string, p: nat): (r: Optional<Groups>)
    requires p <= |s|
    ensures r.Of? ==> r.value.start == p && p < |s| && IsUpper(s[p])
  {
    if p < |s| && IsUpper(s[p]) then
      match LastArtistsEnd(s, p, RunEnd(s, p + 1, Dot))
      case Empty => Empty
      case Of(e) =>
        var q := RunEnd(s, e, Space);
        Optional.Of(Groups(p, e, q - 1, RunEnd(s, q + 2, Space)))
    else Empty
  }

  /** `.?` after position m: one non-terminator character first, then none. */
  function DotStarts(s: string, m: nat): (r: seq<nat>)
    requires m <= |s|
    ensures forall k :: 0 <= k < |r| ==> m <= r[k] <= m + 1 && r[k] <= |s|
    ensures 1 <= |r| && r[|r| - 1] == m
  {
    (if m < |s| && !IsLineTerminator(s[m]) then [m + 1] else []) + [m]
  }

  /** `;?.?` after position j: with the ';' first, then without. */
  function SemiStarts(s: string, j: nat): (r: seq<nat>)
    requires j <= |s|
    ensures forall k :: 0 <= k < |r| ==> j <= r[k] <= j + 2 && r[k] <= |s|
    ensures 1 <= |r| && r[|r| - 1] == j
  {
    (if j < |s| && s[j] == ';' then DotStarts(s, j + 1) else []) + DotStarts(s, j)
  }

  /** `\d*;?.?` with the digits ending at j, then at j - 1, down to 1 (no digits). */
  function DigitStarts(s: string, j: nat): (r: seq<nat>)
    requires 1 <= j <= |s|
    ensures forall k :: 0 <= k < |r| ==> 1 <= r[k] <= j + 2 && r[k] <= |s|
    ensures 1 <= |r| && r[|r| - 1] == 1
    decreases j
  {
    SemiStarts(s, j) + (if j > 1 then DigitStarts(s, j - 1) else [])
  }

  /** The ends of the optional group in the order Java tries them: first `\W*\s*`, whose only
      end that can precede an [A-Z] is the end of the leading non-word run; then, for a leading
      '#', every way `#\d*;?.?` can end; then no group at all. */
  function PrefixStarts(s: string): (r: seq<nat>)
    ensures forall k :: 0 <= k < |r| ==> r[k] <= |s|
    ensures 2 <= |r| && r[0] == RunEnd(s, 0, NonWord) && r[|r| - 1] == 0
  {
    var hash := if 0 < |s| && s[0] == '#' then DigitStarts(s, RunEnd(s, 1, Digit)) else [];
    [RunEnd(s, 0, NonWord)] + hash + [0]
  }

  /** The first start in the list from which the rest of the pattern matches. */
  function FirstMatch(s: string, starts: seq<nat>): (r: Optional<Groups>)
    requires forall k :: 0 <= k < |starts| ==> starts[k] <= |s|
    ensures r.Of? ==> r.value.start in starts && r.value.start <= |s| && MatchAt(s, r.value.start) == r
    ensures r.Empty? ==> forall k :: 0 <= k < |starts| ==> MatchAt(s, starts[k]).Empty?
    decreases |starts|
  {
    if starts == [] then Empty
    else
      var m := MatchAt(s, starts[0]);
      if m.Of? then
        assert m.value.start == starts[0];
        m
      else FirstMatch(s, starts[1..])
  }

  /** `ARTIST_TITLE_REGEX.matcher(s).matches()` and its groups. */
  function Match(s: string): (r: Optional<Groups>)
    ensures r.Of? ==> r.value.start < |s| && IsUpper(s[r.value.start]) && MatchAt(s, r.value.start) == r
    ensures r.Empty? ==> MatchAt(s, 0).Empty?
  {
    FirstMatch(s, PrefixStarts(s))
  }

  /** A match found by MatchAt is a match of the pattern's body. */
  lemma MatchAtSound(s: string, p: nat)
    requires p <= |s| && MatchAt(s, p).Of?
    ensures MatchAt(s, p).value.start == p && BodyFits(s, MatchAt(s, p).value)
  {
    var l := RunEnd(s, p + 1, Dot);
    var r := LastArtistsEnd(s, p, l);
    var e := r.value;
    assert DashAfter(s, e);
    var q := RunEnd(s, e, Space);
    var t := RunEnd(s, q + 2, Space);
    var g := Groups(p, e, q - 1, t);
    assert MatchAt(s, p) == Optional.Of(g);
    AllInWithin(s, p + 1, l, p + 1, e, Dot);
    AllInWithin(s, e, q, e, q - 1, Space);
    assert RunEnd(s, t, Dot) == |s|;
  }

  /** When the body of the pattern matches, the rest after the artists group matches too. */
  lemma DashAfterFits(s: string, g: Groups)
    requires BodyFits(s, g)
    ensures DashAfter(s, g.artistsEnd)
  {
    var q := RunEnd(s, g.artistsEnd, Space);
    RunEndCovers(s, g.artistsEnd, g.dash + 1, Space);
    assert q == g.dash + 1 by {
      assert !IsSpace(s[g.dash + 1]);
    }
    var t := RunEnd(s, q + 2, Space);
    RunEndCovers(s, q + 2, g.titleStart, Space);
    AllInWithin(s, g.titleStart, |s|, t, |s|, Dot);
    RunEndCovers(s, t, |s|, Dot);
  }

  /** The body of the pattern matching from p makes MatchAt find a match. */
  lemma MatchAtComplete(s: string, g: Groups)
    requires BodyFits(s, g)
    ensures MatchAt(s, g.start).Of?
  {
    var p, e := g.start, g.artistsEnd;
    RunEndCovers(s, p + 1, e, Dot);
    DashAfterFits(s, g);
    assert LastArtistsEnd(s, p, RunEnd(s, p + 1, Dot)).Of?;
  }

  /** m is among the ends DigitStarts(s, j) lists, for any digit end j' <= j. */
  lemma {:induction false} InDigitStarts(s: string, j: nat, j': nat, m: nat)
    requires 1 <= j' <= j <= |s|
    requires m in SemiStarts(s, j')
    ensures m in DigitStarts(s, j)
    decreases j
  {
    var semi := SemiStarts(s, j);
    var rest := if j > 1 then DigitStarts(s, j - 1) else [];
    assert DigitStarts(s, j) == semi + rest;
    if j' < j {
      InDigitStarts(s, j - 1, j', m);
      assert m in rest;
    } else {
      assert m in semi;
    }
  }

  /** Every end of `#\d*;?.?` whose digits all lie within the leading digit run is tried. */
  lemma {:induction false} HashTailTried(s: string, i: nat, end: nat)
    requires 1 <= i <= end <= |s| && 0 < |s| && s[0] == '#'
    requires AllIn(s, 1, i, Digit)
    requires HashTail(s, i, end)
    ensures end in DigitStarts(s, RunEnd(s, 1, Digit))
    decreases end - i
  {
    var d := RunEnd(s, 1, Digit);
    RunEndCovers(s, 1, i, Digit);
    if i == end {
      assert end in SemiStarts(s, i);
      InDigitStarts(s, d, i, end);
    } else if end == i + 1 && !IsLineTerminator(s[i]) {
      assert end in SemiStarts(s, i);
      InDigitStarts(s, d, i, end);
    } else if end == i + 1 && s[i] == ';' {
      assert end in DotStarts(s, i + 1);
      assert end in SemiStarts(s, i);
      InDigitStarts(s, d, i, end);
    } else if end == i + 2 && s[i] == ';' && !IsLineTerminator(s[i + 1]) {
      assert end in DotStarts(s, i + 1);
      assert end in SemiStarts(s, i);
      InDigitStarts(s, d, i, end);
    } else {
      assert AllIn(s, 1, i + 1, Digit);
      HashTailTried(s, i + 1, end);
    }
  }

  /** Every end that SemiStarts lists after a run of digits is an end of `#\d*;?.?`. */
  lemma {:induction false} SemiStartsAreHashTails(s: string, i: nat, j: nat, m: nat)
    requires 1 <= i <= j <= |s|
    requires AllIn(s, i, j, Digit)
    requires m in SemiStarts(s, j)
    ensures j <= m <= |s| && HashTail(s, i, m)
    decreases j - i
  {
    if i < j {
      AllInWithin(s, i, j, i + 1, j, Digit);
      SemiStartsAreHashTails(s, i + 1, j, m);
    }
  }

  /** Every end DigitStarts lists is an end of `#\d*;?.?`. */
  lemma {:induction false} DigitStartsAreHashTails(s: string, j: nat, m: nat)
    requires 1 <= j <= |s|
    requires AllIn(s, 1, j, Digit)
    requires m in DigitStarts(s, j)
    ensures 1 <= m <= |s| && HashTail(s, 1, m)
    decreases j
  {
    if m in SemiStarts(s, j) {
      SemiStartsAreHashTails(s, 1, j, m);
    } else {
      AllInWithin(s, 1, j, 1, j - 1, Digit);
      DigitStartsAreHashTails(s, j - 1, m);
    }
  }

  /** Every start the matcher tries is the end of a match of the optional group. */
  lemma PrefixStartsSound(s: string, m: nat)
    requires m in PrefixStarts(s)
    ensures m <= |s| && PrefixOk(s, m)
  {
    var w := RunEnd(s, 0, NonWord);
    if m != w && m != 0 {
      var d := RunEnd(s, 1, Digit);
      DigitStartsAreHashTails(s, d, m);
    }
  }

  /** Soundness: a match the matcher returns is a match of the whole pattern. */
  lemma MatchSound(s: string)
    requires Match(s).Of?
    ensures Fits(s, Match(s).value)
  {
    var g := Match(s).value;
    PrefixStartsSound(s, g.start);
    MatchAtSound(s, g.start);
  }

  /** The artists group is greedy: among all ways the body can match from the same start, the
      matcher's artists group is the longest, so the title follows the last " - " that can start it. */
  lemma MatchAtLongestArtists(s: string, g: Groups)
    requires BodyFits(s, g)
    ensures MatchAt(s, g.start).Of? && g.artistsEnd <= MatchAt(s, g.start).value.artistsEnd
  {
    MatchAtComplete(s, g);
    RunEndCovers(s, g.start + 1, g.artistsEnd, Dot);
    DashAfterFits(s, g);
  }

  /** A start in the list from which the body matches makes FirstMatch succeed. */
  lemma FirstMatchFinds(s: string, starts: seq<nat>, m: nat)
    requires forall x :: 0 <= x < |starts| ==> starts[x] <= |s|
    requires m <= |s| && m in starts && MatchAt(s, m).Of?
    ensures FirstMatch(s, starts).Of?
  {
    var k :| 0 <= k < |starts| && starts[k] == m;
  }

  /** Completeness: whenever the pattern can match `s`, the matcher finds a match. */
  lemma MatchComplete(s: string, g: Groups)
    requires Fits(s, g)
    ensures Match(s).Of?
  {
    MatchAtComplete(s, g);
    if AllIn(s, 0, g.start, NonWord) {
      NonWordPrefixTried(s, g.start);
    } else {
      HashPrefixTried(s, g.start);
    }
    FirstMatchFinds(s, PrefixStarts(s), g.start);
  }

  /** A non-word prefix followed by [A-Z] ends where the leading non-word run ends, which is the
      first start tried. */
  lemma NonWordPrefixTried(s: string, start: nat)
    requires start < |s| && IsUpper(s[start]) && AllIn(s, 0, start, NonWord)
    ensures start in PrefixStarts(s)
  {
    RunEndCovers(s, 0, start, NonWord);
    assert IsWord(s[start]);
  }

  /** A `#\d*;?.?` prefix ends at one of the starts tried. */
  lemma HashPrefixTried(s: string, start: nat)
    requires 1 <= start <= |s| && s[0] == '#' && HashTail(s, 1, start)
    ensures start in PrefixStarts(s)
  {
    HashTailTried(s, 1, start);
  }

  /** Leading non-word characters never end where [A-Z] can begin, except at the end of their run. */
  lemma OnlyRunEndOfNonWordCanMatch(s: string, p: nat)
    requires p < RunEnd(s, 0, NonWord)
    ensures MatchAt(s, p).Empty?
  {
  }

  // ---------------------------------------------------------------------------
  // parse and parseDummy

  /** `parseDummy`: split at the first '-' if there is one, both sides trimmed; otherwise, if
      splitting on ' ' gives exactly two pieces, those (trimmed); otherwise no artists and the
      whole input as the title. */
  function ParseDummy(s: string): (at: ArtistsTitle)
    ensures Trimmed(at)
    ensures '-' in s ==> var i := IndexOf(s, '-');
                         at == ArtistsTitle(NonNull(Trim(s[..i])), NonNull(Trim(s[i + 1..])))
    ensures '-' !in s && |Split(s, ' ')| == 2 ==>
              at == ArtistsTitle(NonNull(Trim(Split(s, ' ')[0])), NonNull(Trim(Split(s, ' ')[1])))
    ensures '-' !in s && |Split(s, ' ')| != 2 ==> at == ArtistsTitle(Null, NonNull(Trim(s)))
  {
    var dash := Split2(s, '-');
    if |dash| == 2 then
      var i := IndexOf(s, '-');
      assert s[..i] == dash[0] && s[i + 1..] == dash[1];
      TrimIdempotent(dash[0]);
      TrimIdempotent(dash[1]);
      Of(NonNull(Trim(dash[0])), NonNull(Trim(dash[1])))
    else
      var spaced := Split(s, ' ');
      if |spaced| == 2 then
        TrimIdempotent(spaced[0]);
        TrimIdempotent(spaced[1]);
        Of(NonNull(Trim(spaced[0])), NonNull(Trim(spaced[1])))
      else Of(Null, NonNull(s))
  }

  /** `parse`: the pattern's groups, trimmed, when it matches and both groups are not blank;
      otherwise parseDummy. */
  function Parse(s: string): (at: ArtistsTitle)
    ensures Trimmed(at)
  {
    match Match(s)
    case Of(g) =>
      var artists := s[g.start..g.artistsEnd];
      var title := s[g.titleStart..];
      if !IsBlank(artists) && !IsBlank(title) then Of(NonNull(artists), NonNull(title))
      else ParseDummy(s)
    case Empty => ParseDummy(s)
  }

  /** When the pattern matches with a non-blank title, parse returns the trimmed groups:
      artists begins with its [A-Z] letter and neither field is empty. */
  lemma ParseByPattern(s: string)
    requires Match(s).Of? && !IsBlank(s[Match(s).value.titleStart..])
    ensures var g := Match(s).value;
            Parse(s) == ArtistsTitle(NonNull(Trim(s[g.start..g.artistsEnd])), NonNull(Trim(s[g.titleStart..])))
    ensures Parse(s).artists.NonNull? && Parse(s).title.NonNull?
    ensures |Parse(s).artists.value| > 0 && IsUpper(Parse(s).artists.value[0])
    ensures |Parse(s).title.value| > 0
  {
    var g := Match(s).value;
    MatchSound(s);
    var artists := s[g.start..g.artistsEnd];
    var title := s[g.titleStart..];
    assert !Trimmable(artists[0]) && !IsBlank(artists);
    assert TrimStart(artists) == 0;
    BlankIffTrimEmpty(title);
  }

  /** When the pattern does not match, or matches with a blank title group (as in "Abc - "),
      parse is parseDummy. */
  lemma ParseFallsBack(s: string)
    requires Match(s).Empty? || IsBlank(s[Match(s).value.titleStart..])
    ensures Parse(s) == ParseDummy(s)
  {
  }

  /** A single word (no '-' and no space) has no artists: the pattern needs " - " and both
      splits leave one piece, so the whole input, trimmed, is the title. */
  lemma ParseSingleWord(s: string)
    requires '-' !in s && ' ' !in s
    ensures Parse(s) == ArtistsTitle(Null, NonNull(Trim(s)))
  {
    if Match(s).Of? {
      MatchSound(s);
    }
  }

  /** Parsing what toString printed gives the track back, as long as the artists contain no '-'. */
  lemma ParseDummyOfToString(artists: string, title: string)
    requires '-' !in Trim(artists)
    ensures var at := Of(NonNull(artists), NonNull(title));
            ParseDummy(ToString(at)) == at
  {
    var a, t := Trim(artists), Trim(title);
    TrimIdempotent(artists);
    TrimIdempotent(title);
    var at := Of(NonNull(artists), NonNull(title));
    assert at == ArtistsTitle(NonNull(a), NonNull(t));
    assert ToString(at) == a + " - " + t;
    ParseDummyOfJoined(a, t);
  }

  /** Trimmed artists without a '-' and a trimmed title, joined by " - ", parse back to themselves. */
  lemma ParseDummyOfJoined(a: string, t: string)
    requires Trim(a) == a && Trim(t) == t && '-' !in a
    ensures ParseDummy(a + " - " + t) == ArtistsTitle(NonNull(a), NonNull(t))
  {
    var s := a + " - " + t;
    assert s[..|a| + 1] == a + " ";
    assert s[|a| + 2..] == " " + t;
    assert '-' !in a + " ";
    ParseDummyAtDash(s, |a| + 1);
    TrimPadded(a);
    TrimPadded(t);
  }

  /** parseDummy splits at the first '-'. */
  lemma ParseDummyAtDash(s: string, i: nat)
    requires i < |s| && s[i] == '-' && '-' !in s[..i]
    ensures ParseDummy(s) == ArtistsTitle(NonNull(Trim(s[..i])), NonNull(Trim(s[i + 1..])))
  {
    IndexOfAt(s, '-', i);
  }

  /** A trimmed string with one space added on either side trims back to itself. */
  lemma TrimPadded(x: string)
    requires Trim(x) == x
    ensures Trim(x + " ") == x && Trim(" " + x) == x
  {
    if |x| == 0 {
      assert TrimStart(" ") == 1;
    } else {
      var y := x + " ";
      assert TrimStart(y) == 0 by { assert y[0] == x[0]; }
      assert TrimEndFrom(y, 0) == |x| by {
        assert y[..|y| - 1] == x;
        assert TrimEndFrom(x, 0) == |x|;
      }
      assert y[..|x|] == x;
      var z := " " + x;
      assert TrimStart(z) == 1 by { assert z[1..] == x; assert TrimStart(x) == 0; }
      assert TrimEndFrom(z, 1) == |z| by { assert z[|z| - 1] == x[|x| - 1]; }
      assert z[1..] == x;
    }
  }
}
