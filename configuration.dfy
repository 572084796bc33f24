/** Configuration.parseCookies: the VK cookie header `name=value; name=value` turned into a map
    by splitting on ';', splitting each piece on '=', trimming key and value, and collecting with
    `Collectors.toMap`, which rejects a repeated key. */
module Configuration {
  import opened Jdk

  /** One piece mapped to its pair: the trimmed first and second '='-separated parts. When split
      leaves fewer than two parts, indexing the array throws. */
  function Entry(piece: string): (r: Exit<(string, string)>)
    ensures r.Throw? ==> r.thrown == ArrayIndexOutOfBoundsException
  {
    var keyValue := Split(piece, '=');
    if |keyValue| < 2 then Throw(ArrayIndexOutOfBoundsException)
    else Return((Trim(keyValue[0]), Trim(keyValue[1])))
  }

  /** The stream after `map(split).map(Pair.of)`: each piece's pair, or the exception mapping it throws. */
  function Pairs(pieces: seq<string>): (ps: seq<Exit<(string, string)>>)
    ensures |ps| == |pieces| && forall i :: 0 <= i < |pieces| ==> ps[i] == Entry(pieces[i])
  {
    seq(|pieces|, i requires 0 <= i < |pieces| => Entry(pieces[i]))
  }

  /** Every element of the stream is a pair. */
  predicate AllPairs(ps: seq<Exit<(string, string)>>) {
    forall i :: 0 <= i < |ps| ==> ps[i].Return?
  }

  /** No two pairs of the stream have the same key. */
  predicate DistinctKeys(ps: seq<Exit<(string, string)>>)
    requires AllPairs(ps)
  {
    forall i, j :: 0 <= i < j < |ps| ==> ps[i].value.0 != ps[j].value.0
  }

  /** One step of `toMap`'s accumulator: a failure so far stays, an element whose mapping threw
      throws, and a key already present throws. */
  function Insert(acc: Exit<map<string, string>>, p: Exit<(string, string)>): (r: Exit<map<string, string>>)
    ensures r.Return? <==> acc.Return? && p.Return? && p.value.0 !in acc.value
    ensures r.Return? ==> r.value == acc.value[p.value.0 := p.value.1]
    ensures acc.Throw? ==> r == acc
    ensures acc.Return? && p.Throw? ==> r == Throw(p.thrown)
    ensures acc.Return? && p.Return? && r.Throw? ==> r.thrown == IllegalStateException
  {
    match acc
    case Throw(e) => Throw(e)
    case Return(m) =>
      match p
      case Throw(e) => Throw(e)
      case Return(kv) => if kv.0 in m then Throw(IllegalStateException) else Return(m[kv.0 := kv.1])
  }

  /** `collect(Collectors.toMap(Pair::getLeft, Pair::getRight))`, in stream order: the first
      element that fails, by its own exception or by a key already present, decides the outcome. */
  function ToMap(ps: seq<Exit<(string, string)>>): (r: Exit<map<string, string>>)
    ensures ps == [] ==> r == Return(map[])
    ensures AllPairs(ps) && r.Throw? ==> r.thrown == IllegalStateException
    decreases |ps|
  {
    if ps == [] then Return(map[])
    else
      assert AllPairs(ps) ==> AllPairs(ps[..|ps| - 1]) by {
        assert forall i :: 0 <= i < |ps| - 1 ==> ps[..|ps| - 1][i] == ps[i];
      }
      Insert(ToMap(ps[..|ps| - 1]), ps[|ps| - 1])
  }

  /** `parseCookies()`: the cookie split on ';' (trailing empty pieces dropped), each piece
      mapped to its pair, and the pairs collected. A null cookie throws. */
  function ParseCookies(vkCookie: Nullable<string>): (r: Exit<map<string, string>>)
    ensures vkCookie.Null? ==> r == Throw(NullPointerException)
  {
    match vkCookie
    case Null => Throw(NullPointerException)
    case NonNull(c) => ToMap(Pairs(Split(c, ';')))
  }

  /** The map a successful collection builds: every element is a pair, each pair's key maps to
      its value, and every key comes from a pair. */
  lemma {:induction false} ToMapContents(ps: seq<Exit<(string, string)>>)
    requires ToMap(ps).Return?
    ensures AllPairs(ps)
    ensures forall i :: 0 <= i < |ps| ==> ps[i].value.0 in ToMap(ps).value && ToMap(ps).value[ps[i].value.0] == ps[i].value.1
    ensures forall k :: k in ToMap(ps).value ==> exists i :: 0 <= i < |ps| && ps[i].Return? && ps[i].value.0 == k
    decreases |ps|
  {
    if ps != [] {
      var n := |ps| - 1;
      var front := ps[..n];
      assert forall i :: 0 <= i < n ==> front[i] == ps[i];
      ToMapContents(front);
      var m := ToMap(front).value;
      var kn := ps[n].value.0;
      assert kn !in m;
      assert ToMap(ps).value == m[kn := ps[n].value.1];
      forall i | 0 <= i < n ensures ps[i].value.0 in ToMap(ps).value && ToMap(ps).value[ps[i].value.0] == ps[i].value.1 {
        assert front[i].value.0 in m;
      }
    }
  }

  /** A successful collection has one entry per element. */
  lemma {:induction false} ToMapSize(ps: seq<Exit<(string, string)>>)
    requires ToMap(ps).Return?
    ensures |ToMap(ps).value| == |ps|
    decreases |ps|
  {
    if ps != [] {
      var n := |ps| - 1;
      ToMapSize(ps[..n]);
    }
  }

  /** A successful collection had no repeated key. */
  lemma {:induction false} ToMapDistinct(ps: seq<Exit<(string, string)>>)
    requires ToMap(ps).Return?
    ensures AllPairs(ps) && DistinctKeys(ps)
    decreases |ps|
  {
    if ps != [] {
      var n := |ps| - 1;
      var front := ps[..n];
      ToMapDistinct(front);
      ToMapContents(front);
      var m := ToMap(front).value;
      assert ps[n].Return? && ps[n].value.0 !in m;
      forall i | 0 <= i < |ps| ensures ps[i].Return? {
        if i < n {
          assert front[i] == ps[i];
        }
      }
      forall i, j | 0 <= i < j < |ps| ensures ps[i].value.0 != ps[j].value.0 {
        assert front[i] == ps[i];
        if j < n {
          assert front[j] == ps[j];
        } else {
          assert front[i].value.0 in m;
        }
      }
    }
  }

  /** Pairs with distinct keys are collected successfully. */
  lemma {:induction false} ToMapSucceeds(ps: seq<Exit<(string, string)>>)
    requires AllPairs(ps) && DistinctKeys(ps)
    ensures ToMap(ps).Return?
    decreases |ps|
  {
    if ps != [] {
      var n := |ps| - 1;
      var front := ps[..n];
      assert forall i :: 0 <= i < n ==> front[i] == ps[i];
      ToMapSucceeds(front);
      ToMapContents(front);
    }
  }

  /** Collecting succeeds exactly when every element is a pair and no key repeats; a failure is
      an index error from a piece or the duplicate-key error. */
  lemma ToMapSpec(ps: seq<Exit<(string, string)>>)
    ensures ToMap(ps).Return? <==> AllPairs(ps) && DistinctKeys(ps)
  {
    if ToMap(ps).Return? {
      ToMapDistinct(ps);
    }
    if AllPairs(ps) && DistinctKeys(ps) {
      ToMapSucceeds(ps);
    }
  }

  /** Once a prefix of the stream has failed, the rest of the stream does not matter: the first
      element that fails decides the outcome. */
  lemma {:induction false} ToMapFailureStays(ps: seq<Exit<(string, string)>>, n: nat)
    requires n <= |ps| && ToMap(ps[..n]).Throw?
    ensures ToMap(ps) == ToMap(ps[..n])
    decreases |ps|
  {
    if n == |ps| {
      assert ps[..n] == ps;
    } else {
      var front := ps[..|ps| - 1];
      assert front[..n] == ps[..n];
      ToMapFailureStays(front, n);
    }
  }

  /** Pairs with a repeated key make `toMap` throw IllegalStateException. */
  lemma ToMapRepeatedKey(ps: seq<Exit<(string, string)>>)
    requires AllPairs(ps) && !DistinctKeys(ps)
    ensures ToMap(ps) == Throw(IllegalStateException)
  {
    ToMapSpec(ps);
  }

  /** A failed collection fails with an error from mapping a piece or with the duplicate-key error. */
  lemma {:induction false} ToMapErrors(pieces: seq<string>)
    ensures ToMap(Pairs(pieces)).Throw? ==>
              ToMap(Pairs(pieces)).thrown == ArrayIndexOutOfBoundsException
              || ToMap(Pairs(pieces)).thrown == IllegalStateException
    decreases |pieces|
  {
    if pieces != [] {
      var n := |pieces| - 1;
      assert Pairs(pieces)[..n] == Pairs(pieces[..n]);
      ToMapErrors(pieces[..n]);
    }
  }

  /** On success the cookie map has one entry per ';'-piece, mapping the piece's trimmed key to
      its trimmed value, and nothing else; the call fails exactly when a piece has no pair or a
      key repeats. */
  lemma ParseCookiesSpec(cookie: string)
    ensures var ps := Pairs(Split(cookie, ';'));
            ParseCookies(NonNull(cookie)).Return? <==> AllPairs(ps) && DistinctKeys(ps)
    ensures var ps := Pairs(Split(cookie, ';'));
            var r := ParseCookies(NonNull(cookie));
            r.Return? ==>
              |r.value| == |ps|
              && (forall i :: 0 <= i < |ps| ==> ps[i].value.0 in r.value && r.value[ps[i].value.0] == ps[i].value.1)
              && (forall k :: k in r.value ==> exists i :: 0 <= i < |ps| && ps[i].Return? && ps[i].value.0 == k)
  {
    var ps := Pairs(Split(cookie, ';'));
    ToMapSpec(ps);
    if ToMap(ps).Return? {
      ToMapContents(ps);
      ToMapSize(ps);
    }
  }

  /** A piece `k=a=b` maps `k` to `a`: only the text between the first '=' and the next one is
      kept, as long as that text is not empty. */
  lemma EntryKeepsFirstValue(key: string, value: string, rest: string)
    requires '=' !in key && '=' !in value && value != ""
    ensures Entry(key + "=" + value + "=" + rest) == Return((Trim(key), Trim(value)))
  {
    var tail := value + ['='] + rest;
    var piece := key + ['='] + tail;
    assert key + "=" + value + "=" + rest == piece;
    var ps := Pieces(piece, '=');
    PiecesCons(key, '=', tail);
    PiecesCons(value, '=', rest);
    assert ps[0] == key && ps[1] == value;
    assert '=' in piece by { assert piece[|key|] == '='; }
    var kv := Split(piece, '=');
    assert kv == DropTrailingEmpty(ps);
    KeepsNonEmpty(ps, 1);
    assert kv[0] == key && kv[1] == value;
  }

  /** An ordinary piece `k=v` maps to its trimmed key and its trimmed value. */
  lemma EntryOfPair(key: string, value: string)
    requires '=' !in key && '=' !in value && value != ""
    ensures Entry(key + "=" + value) == Return((Trim(key), Trim(value)))
  {
    var piece := key + ['='] + value;
    assert key + "=" + value == piece;
    var ps := Pieces(piece, '=');
    PiecesCons(key, '=', value);
    assert ps == [key, value];
    assert '=' in piece by { assert piece[|key|] == '='; }
    KeepsNonEmpty(ps, 1);
  }

  /** Dropping trailing empty strings keeps everything up to a non-empty one. */
  lemma KeepsNonEmpty(ps: seq<string>, k: nat)
    requires k < |ps| && ps[k] != ""
    ensures k < |DropTrailingEmpty(ps)| && DropTrailingEmpty(ps)[k] == ps[k]
  {
  }

  /** A piece without '=' (an empty or blank piece among them) has no pair. */
  lemma EntryNeedsEquals(piece: string)
    requires '=' !in piece
    ensures Entry(piece) == Throw(ArrayIndexOutOfBoundsException)
  {
  }

  /** A piece `k=` with nothing after the '=' has no pair: split drops the trailing empty value. */
  lemma EntryNeedsValue(key: string)
    requires '=' !in key
    ensures Entry(key + "=") == Throw(ArrayIndexOutOfBoundsException)
  {
    PiecesCons(key, '=', "");
    assert key + "=" == key + ['='] + "";
    assert Pieces(key + "=", '=') == [key, ""];
    assert '=' in key + "=" by { assert (key + "=")[|key|] == '='; }
    assert DropTrailingEmpty([key, ""]) == DropTrailingEmpty([key]);
  }

  /** A trailing ';' adds nothing to a non-empty cookie. (The empty cookie is different: it is
      one empty piece and fails, while ";" has no pieces and gives the empty map.) */
  lemma TrailingSemicolonIgnored(cookie: string)
    requires cookie != ""
    ensures ParseCookies(NonNull(cookie + ";")) == ParseCookies(NonNull(cookie))
  {
    SplitTrailing(cookie, ';');
  }

  /** A blank piece that split keeps (a leading or an interior one) makes the call fail. */
  lemma BlankPieceFails(cookie: string, i: nat)
    requires i < |Split(cookie, ';')| && IsBlank(Split(cookie, ';')[i])
    ensures ParseCookies(NonNull(cookie)).Throw?
  {
    var pieces := Split(cookie, ';');
    assert '=' !in pieces[i];
    ToMapSpec(Pairs(pieces));
  }

  /** Two pieces with the same trimmed key make the call fail, whatever their values. */
  lemma RepeatedKeyFails(cookie: string, i: nat, j: nat)
    requires i < j < |Split(cookie, ';')|
    requires Entry(Split(cookie, ';')[i]).Return? && Entry(Split(cookie, ';')[j]).Return?
    requires Entry(Split(cookie, ';')[i]).value.0 == Entry(Split(cookie, ';')[j]).value.0
    ensures ParseCookies(NonNull(cookie)).Throw?
  {
    ToMapSpec(Pairs(Split(cookie, ';')));
  }
}
