/** The parts of Java's semantics the utilities depend on: 32-bit int arithmetic,
    null references, java.util.Optional, exceptions and the way a call ends, and the
    java.lang.String operations (trim, split on one character, concatenation of null). */
module Jdk {

  /** Java's `int`. */
  type Int32 = x: int | -0x8000_0000 <= x <= 0x7fff_ffff

  /** Two's-complement wrap-around of a mathematical integer into the `int` range. */
  function Wrap32(x: int): (r: Int32)
    ensures (r - x) % 0x1_0000_0000 == 0
    ensures -0x8000_0000 <= x <= 0x7fff_ffff ==> r == x
  {
    (x + 0x8000_0000) % 0x1_0000_0000 - 0x8000_0000
  }

  /** Java's `int` multiplication `a * b`, which wraps around on overflow. */
  function Mul32(a: Int32, b: Int32): (r: Int32)
    ensures -0x8000_0000 <= a * b <= 0x7fff_ffff ==> r == a * b
  {
    Wrap32(a * b)
  }

  /** A reference that may be null. */
  datatype Nullable<T> = Null | NonNull(value: T)

  /** java.util.Optional. */
  datatype Optional<T> = Empty | Of(value: T)

  /** An exception thrown by code outside the model (an operation, a task body); only its identity matters. */
  datatype Exception = Exception(id: nat)

  /** The exceptions that the modelled code itself raises. */
  datatype Thrown =
    | NullPointerException
    | ArrayIndexOutOfBoundsException
    | IllegalStateException
    | RuntimeException(cause: Exception)

  /** How a Java call ends: normally with a value, or abruptly with an exception. */
  datatype Exit<T> = Return(value: T) | Throw(thrown: Thrown)

  /** One invocation of an operation that returns a (possibly null) T or throws an Exception
      (an Error, which no catch in the modelled code handles, is not modelled). */
  datatype Outcome<T> = Returns(result: Nullable<T>) | Throws(cause: Exception)

  /** One invocation of an operation that returns nothing (Runnable.run, Consumer.accept). */
  datatype Completion = Completes | Fails(cause: Exception)

  /** `String.valueOf(s)`, which is what string concatenation does with a reference: null becomes "null". */
  function ValueOf(s: Nullable<string>): (r: string)
    ensures s.NonNull? ==> r == s.value
    ensures s.Null? ==> r == "null"
  {
    match s
    case Null => "null"
    case NonNull(v) => v
  }

  // ---------------------------------------------------------------------------
  // String.trim

  /** The characters String.trim removes: every code unit up to U+0020. */
  predicate Trimmable(c: char) {
    c <= ' '
  }

  /** Index of the first character that trim keeps (|s| if there is none). */
  function TrimStart(s: string): (i: nat)
    ensures i <= |s|
    ensures forall k :: 0 <= k < i ==> Trimmable(s[k])
    ensures i < |s| ==> !Trimmable(s[i])
    decreases |s|
  {
    if |s| == 0 || !Trimmable(s[0]) then 0 else 1 + TrimStart(s[1..])
  }

  /** One past the last character that trim keeps, searching no lower than `lo`. */
  function TrimEndFrom(s: string, lo: nat): (j: nat)
    requires lo <= |s|
    ensures lo <= j <= |s|
    ensures forall k :: j <= k < |s| ==> Trimmable(s[k])
    ensures j > lo ==> !Trimmable(s[j - 1])
    decreases |s|
  {
    if |s| == lo || !Trimmable(s[|s| - 1]) then |s| else TrimEndFrom(s[..|s| - 1], lo)
  }

  /** `s.trim()`: drops every leading and trailing character up to U+0020. */
  function Trim(s: string): (t: string)
    ensures |t| <= |s|
    ensures |t| > 0 ==> !Trimmable(t[0]) && !Trimmable(t[|t| - 1])
  {
    var i := TrimStart(s);
    s[i..TrimEndFrom(s, i)]
  }

  /** Trim removes exactly a blank prefix and a blank suffix, and keeps what lies between. */
  lemma TrimShape(s: string)
    ensures exists i, j :: 0 <= i <= j <= |s| && Trim(s) == s[i..j]
                           && (forall k :: 0 <= k < i ==> Trimmable(s[k]))
                           && (forall k :: j <= k < |s| ==> Trimmable(s[k]))
  {
    var i := TrimStart(s);
    var j := TrimEndFrom(s, i);
    assert Trim(s) == s[i..j];
  }

  /** A string without leading or trailing trimmable characters is its own trim. */
  lemma TrimOfTrimmed(s: string)
    requires |s| > 0 ==> !Trimmable(s[0]) && !Trimmable(s[|s| - 1])
    ensures Trim(s) == s
  {
    assert TrimStart(s) == 0;
    assert TrimEndFrom(s, 0) == |s|;
  }

  /** Trimming twice is trimming once. */
  lemma TrimIdempotent(s: string)
    ensures Trim(Trim(s)) == Trim(s)
  {
    TrimOfTrimmed(Trim(s));
  }

  /** A string is blank when it is empty or made only of trimmable characters. */
  predicate IsBlank(s: string) {
    forall k :: 0 <= k < |s| ==> Trimmable(s[k])
  }

  /** Blank exactly when trim leaves nothing. */
  lemma BlankIffTrimEmpty(s: string)
    ensures IsBlank(s) <==> Trim(s) == ""
  {
    var i := TrimStart(s);
    if i < |s| {
      assert TrimEndFrom(s, i) > i;
    }
  }

  // ---------------------------------------------------------------------------
  // String.split with a one-character, non-metacharacter regex

  /** `s.indexOf(c)`, or |s| when `c` does not occur. */
  function IndexOf(s: string, c: char): (i: nat)
    ensures i <= |s|
    ensures i < |s| <==> c in s
    ensures i < |s| ==> s[i] == c
    ensures forall k :: 0 <= k < i ==> s[k] != c
    decreases |s|
  {
    if |s| == 0 then 0 else if s[0] == c then 0 else 1 + IndexOf(s[1..], c)
  }

  /** The first occurrence of `c` is where indexOf finds it. */
  lemma IndexOfAt(s: string, c: char, i: nat)
    requires i < |s| && s[i] == c && c !in s[..i]
    ensures IndexOf(s, c) == i
  {
    assert forall k :: 0 <= k < i ==> s[k] == s[..i][k];
  }

  /** Every piece between occurrences of `c`, including empty ones: the list split builds before trimming it. */
  function Pieces(s: string, c: char): (ps: seq<string>)
    ensures |ps| >= 1
    ensures forall k :: 0 <= k < |ps| ==> c !in ps[k]
    ensures c !in s ==> ps == [s]
    decreases |s|
  {
    var i := IndexOf(s, c);
    if i == |s| then [s] else [s[..i]] + Pieces(s[i + 1..], c)
  }

  /** A string that starts with a piece free of `c` and then a `c` splits into that piece and
      the pieces of the rest. */
  lemma PiecesCons(k: string, c: char, rest: string)
    requires c !in k
    ensures Pieces(k + [c] + rest, c) == [k] + Pieces(rest, c)
  {
    var s := k + [c] + rest;
    assert s[..|k|] == k;
    IndexOfAt(s, c, |k|);
    assert s[|k| + 1..] == rest;
  }

  /** A `c` added at the end adds one empty piece at the end. */
  lemma {:induction false} PiecesSnoc(s: string, c: char)
    ensures Pieces(s + [c], c) == Pieces(s, c) + [""]
    decreases |s|
  {
    var i := IndexOf(s, c);
    if i == |s| {
      calc {
        Pieces(s + [c], c);
        { assert s + [c] == s + [c] + ""; PiecesCons(s, c, ""); }
        [s] + Pieces("", c);
        { assert c !in ""; }
        [s] + [""];
        { assert c !in s; }
        Pieces(s, c) + [""];
      }
    } else {
      var k, rest := s[..i], s[i + 1..];
      assert s == k + [c] + rest;
      calc {
        Pieces(s + [c], c);
        { assert s + [c] == k + [c] + (rest + [c]); PiecesCons(k, c, rest + [c]); }
        [k] + Pieces(rest + [c], c);
        { PiecesSnoc(rest, c); }
        [k] + (Pieces(rest, c) + [""]);
        ([k] + Pieces(rest, c)) + [""];
        { PiecesCons(k, c, rest); }
        Pieces(s, c) + [""];
      }
    }
  }

  /** Joining the pieces with `c` gives back the string. */
  lemma {:induction false} PiecesJoin(s: string, c: char)
    ensures Join(Pieces(s, c), c) == s
    decreases |s|
  {
    var i := IndexOf(s, c);
    if i < |s| {
      var k, tail := s[..i], s[i + 1..];
      assert s == k + [c] + tail;
      calc {
        Join(Pieces(s, c), c);
        { PiecesCons(k, c, tail); }
        Join([k] + Pieces(tail, c), c);
        { JoinCons(k, Pieces(tail, c), c); }
        k + [c] + Join(Pieces(tail, c), c);
        { PiecesJoin(tail, c); }
        k + [c] + tail;
      }
    }
  }

  /** Joining a first piece in front of at least one more puts `c` between them. */
  lemma JoinCons(k: string, rest: seq<string>, c: char)
    requires |rest| >= 1
    ensures Join([k] + rest, c) == k + [c] + Join(rest, c)
  {
    assert ([k] + rest)[1..] == rest;
  }

  /** The pieces joined back together with `c` between them. */
  function Join(ps: seq<string>, c: char): string
    decreases |ps|
  {
    if |ps| == 0 then "" else if |ps| == 1 then ps[0] else ps[0] + [c] + Join(ps[1..], c)
  }

  /** The list with its trailing empty strings removed. */
  function DropTrailingEmpty(ps: seq<string>): (r: seq<string>)
    ensures |r| <= |ps| && r == ps[..|r|]
    ensures |r| > 0 ==> r[|r| - 1] != ""
    ensures forall k :: |r| <= k < |ps| ==> ps[k] == ""
    decreases |ps|
  {
    if |ps| > 0 && ps[|ps| - 1] == "" then DropTrailingEmpty(ps[..|ps| - 1]) else ps
  }

  /** `s.split(c)` (limit 0): when `c` occurs, the pieces with trailing empty strings dropped;
      when it does not occur, the one-element array holding `s`. */
  function Split(s: string, c: char): (r: seq<string>)
    ensures c !in s ==> r == [s]
    ensures c in s ==> r == DropTrailingEmpty(Pieces(s, c))
  {
    if c in s then DropTrailingEmpty(Pieces(s, c)) else [s]
  }

  /** A trailing `c` changes nothing, since it only adds a trailing empty piece; except on the
      empty string, which splits to [""] while `c` alone splits to []. */
  lemma SplitTrailing(s: string, c: char)
    requires s != ""
    ensures Split(s + [c], c) == Split(s, c)
  {
    PiecesSnoc(s, c);
    var ps := Pieces(s, c);
    assert (ps + [""])[..|ps|] == ps;
    assert c in s + [c] by { assert (s + [c])[|s|] == c; }
    assert Split(s + [c], c) == DropTrailingEmpty(ps);
    if c !in s {
      assert ps == [s];
    }
  }

  /** `s.split(c, 2)`: at most two pieces, split at the first `c`; trailing empty strings are kept. */
  function Split2(s: string, c: char): (r: seq<string>)
    ensures c !in s ==> r == [s]
    ensures c in s ==> |r| == 2 && r[0] + [c] + r[1] == s && c !in r[0]
  {
    var i := IndexOf(s, c);
    if i == |s| then [s] else [s[..i], s[i + 1..]]
  }
}
