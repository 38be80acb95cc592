/** The key discipline: one string per sequence of values
    (packages/datalog/src/types.ts). */
module Keys {
  import opened Prelude
  import opened Numbers
  import opened Values
  import opened Unify

  /** Selects every position: -1, whose 32 bits are all set. */
  const ALL_POSITIONS: Mask := set b: nat | b < 32

  // ---------------------------------------------------------------------
  // Texts of integers and bytes
  // ---------------------------------------------------------------------

  function IntText(i: int): string {
    if i < 0 then "-" + NatText(-i) else NatText(i)
  }

  function BytesText(bytes: seq<Byte>): string {
    if bytes == [] then ""
    else BytesText(bytes[..|bytes| - 1]) + ByteText(bytes[|bytes| - 1])
  }

  /** Two hexadecimal digits. */
  function ByteText(b: nat): string
    requires b < 256
  {
    [DigitChar(b / 16), DigitChar(b % 16)]
  }

  ghost predicate Free(s: string, c: char) {
    forall i :: 0 <= i < |s| ==> s[i] != c
  }

  lemma IntTextInjective(i: int, j: int)
    ensures IntText(i) == IntText(j) ==> i == j
    ensures IntText(i) != [] && Free(IntText(i), '|') && Free(IntText(i), ':')
  {
    NatTextDigits(if i < 0 then -i else i);
    NatTextDigits(if j < 0 then -j else j);
    assert i < 0 ==> IntText(i)[1..] == NatText(-i);
    assert j < 0 ==> IntText(j)[1..] == NatText(-j);
    assert IntText(i)[0] == '-' <==> i < 0;
    assert IntText(j)[0] == '-' <==> j < 0;
  }

  lemma {:induction false} BytesTextFree(a: seq<Byte>)
    ensures Free(BytesText(a), '|')
  {
    if a != [] {
      BytesTextFree(a[..|a| - 1]);
    }
  }

  lemma {:induction false} BytesTextInjective(a: seq<Byte>, b: seq<Byte>)
    ensures BytesText(a) == BytesText(b) ==> a == b
  {
    if a != [] && b != [] {
      var s, t := BytesText(a), BytesText(b);
      var x, y := a[|a| - 1], b[|b| - 1];
      BytesTextInjective(a[..|a| - 1], b[..|b| - 1]);
      assert s == BytesText(a[..|a| - 1]) + ByteText(x) && t == BytesText(b[..|b| - 1]) + ByteText(y);
      assert s[..|s| - 2] == BytesText(a[..|a| - 1]) && t[..|t| - 2] == BytesText(b[..|b| - 1]);
      assert s[|s| - 2..] == ByteText(x) && t[|t| - 2..] == ByteText(y);
      ByteTextInjective(x, y);
      assert a == a[..|a| - 1] + [x] && b == b[..|b| - 1] + [y];
    }
  }

  lemma ByteTextInjective(x: Byte, y: Byte)
    ensures ByteText(x) == ByteText(y) ==> x == y
  {
    if ByteText(x) == ByteText(y) {
      assert ByteText(x)[0] == DigitChar(x / 16) && ByteText(y)[0] == DigitChar(y / 16);
      assert ByteText(x)[1] == DigitChar(x % 16) && ByteText(y)[1] == DigitChar(y % 16);
      DigitCharInjective(x / 16, y / 16);
      DigitCharInjective(x % 16, y % 16);
    }
  }

  lemma DigitCharInjective(d: nat, e: nat)
    requires d < 16 && e < 16
    ensures DigitChar(d) == DigitChar(e) ==> d == e
  {
  }

  // ---------------------------------------------------------------------
  // Keys
  // ---------------------------------------------------------------------

  function SerializeValue(v: Value): string {
    match v
    case Null => "N"
    case Bool(b) => if b then "T" else "F"
    case Num(n) => "f:" + n
    case Big(i) => "i:" + IntText(i)
    case Str(s) => "s:" + IntText(|s|) + ":" + s
    case Bytes(b) => "b:" + BytesText(b)
    case Ref(peer, counter) => "r:" + peer + ":" + IntText(counter)
  }

  /** The key of a whole sequence of values. */
  function TupleKey(values: Tuple): string {
    if values == [] then ""
    else
      var last := SerializeValue(values[|values| - 1]);
      if |values| == 1 then last else TupleKey(values[..|values| - 1]) + "|" + last
  }

  /** The key of the values at the positions of `mask`. */
  function MaskedKey(tuple: Tuple, mask: Mask): string {
    TupleKey(Select(tuple, mask, |tuple|))
  }

  lemma TupleKeyAppend(values: Tuple, v: Value)
    ensures TupleKey(values + [v]) == if values == [] then SerializeValue(v) else TupleKey(values) + "|" + SerializeValue(v)
  {
    assert (values + [v])[..|values|] == values;
  }

  /** The key at the positions of `mask` is the full key of the sub-sequence
      selected, position counts being taken modulo 32. */
  method SerializeTuple(tuple: Tuple, mask: Mask := ALL_POSITIONS) returns (key: string)
    ensures key == MaskedKey(tuple, mask)
    ensures mask == ALL_POSITIONS ==> key == TupleKey(tuple)
  {
    key := "";
    var first := true;
    for i := 0 to |tuple|
      invariant key == TupleKey(Select(tuple, mask, i))
      invariant first <==> Select(tuple, mask, i) == []
    {
      if i % 32 in mask {
        TupleKeyAppend(Select(tuple, mask, i), tuple[i]);
        key := if first then SerializeValue(tuple[i]) else key + "|" + SerializeValue(tuple[i]);
        first := false;
      }
    }
    if mask == ALL_POSITIONS {
      SelectAll(tuple, |tuple|);
    }
  }

  lemma {:induction false} SelectAll(tuple: Tuple, n: nat)
    requires n <= |tuple|
    ensures Select(tuple, ALL_POSITIONS, n) == tuple[..n]
    ensures n == |tuple| ==> Select(tuple, ALL_POSITIONS, n) == tuple
  {
    if n > 0 {
      SelectAll(tuple, n - 1);
      assert (n - 1) % 32 in ALL_POSITIONS;
      assert tuple[..n] == tuple[..n - 1] + [tuple[n - 1]];
    }
  }

  /** Up to the arity a mask can describe, the positions selected are exactly
      the members of the mask, in ascending order: nothing is aliased by the
      shift count. */
  lemma {:induction false} SelectIsSubsequence(tuple: Tuple, mask: Mask, n: nat, i: nat)
    requires |tuple| <= 32 && i < n <= |tuple|
    ensures i in mask ==> |Select(tuple, mask, i)| < |Select(tuple, mask, n)| && Select(tuple, mask, n)[|Select(tuple, mask, i)|] == tuple[i]
    ensures Select(tuple, mask, i) <= Select(tuple, mask, n)
    ensures i !in mask ==> Select(tuple, mask, i) == Select(tuple, mask, i + 1)
  {
    if n > i + 1 {
      SelectIsSubsequence(tuple, mask, n - 1, i);
    }
  }

  // ---------------------------------------------------------------------
  // Injectivity
  // ---------------------------------------------------------------------

  /** Text that could be the end of a serialized reference. */
  ghost predicate EndsLikeRef(s: string) {
    exists k, c: int :: 0 <= k <= |s| && s[k..] == ":" + IntText(c)
  }

  /** A value begins with one of these. */
  const TAGS: string := "NTFfisbr"

  /** A separator in a peer's name never comes between such text and the tag of a
      value. */
  ghost predicate SafePeer(peer: string) {
    forall i :: 0 <= i && i + 1 < |peer| && peer[i] == '|' && peer[i + 1] in TAGS ==> !EndsLikeRef(peer[..i])
  }

  ghost predicate Legible(v: Value) {
    v.Ref? ==> SafePeer(v.peer)
  }

  ghost predicate AllLegible(values: Tuple) {
    forall i :: 0 <= i < |values| ==> Legible(values[i])
  }

  /** It is enough that no separator comes right after a digit, or that none comes
      right before a tag. */
  lemma PipeApartIsSafe(peer: string)
    requires
      || (forall i :: 0 < i < |peer| && peer[i] == '|' ==> !('0' <= peer[i - 1] <= '9'))
      || (forall i :: 0 < i < |peer| && peer[i - 1] == '|' ==> peer[i] !in TAGS)
    ensures SafePeer(peer)
  {
    forall i | 0 <= i && i + 1 < |peer| && peer[i] == '|' && peer[i + 1] in TAGS ensures !EndsLikeRef(peer[..i]) {
      EndsInDigit(peer[..i]);
    }
  }

  lemma EndsInDigit(s: string)
    ensures EndsLikeRef(s) ==> s != [] && '0' <= s[|s| - 1] <= '9'
  {
    if k, c: int :| 0 <= k <= |s| && s[k..] == ":" + IntText(c) {
      LastIsDigit(c);
      var end := ":" + IntText(c);
      assert s[k..][|end| - 1] == s[|s| - 1] && end[|end| - 1] == IntText(c)[|IntText(c)| - 1];
    }
  }

  lemma LastIsDigit(c: int)
    ensures var s := IntText(c); s != [] && '0' <= s[|s| - 1] <= '9'
  {
    var n := if c < 0 then -c else c;
    NatTextDigits(n);
    assert NatText(n)[|NatText(n)| - 1] == DigitChar(n % 10);
  }

  /** What can follow a value in a key: nothing, or a separator and a value. */
  ghost predicate Rest(s: string) {
    s == [] || (|s| > 1 && s[0] == '|' && s[1] in TAGS)
  }

  lemma CleanSplit(s: string, t: string, x: string, y: string)
    requires s + x == t + y
    requires Free(s, '|') && Free(t, '|') && Rest(x) && Rest(y)
    ensures s == t && x == y
  {
    var whole := s + x;
    assert forall i :: 0 <= i < |s| ==> whole[i] == s[i];
    assert forall i :: 0 <= i < |t| ==> whole[i] == t[i];
    assert x != [] ==> whole[|s|] == '|';
    assert y != [] ==> whole[|t|] == '|';
    assert |s| == |t|;
    assert s == whole[..|s|] && t == whole[..|t|];
    assert x == whole[|s|..] && y == whole[|t|..];
  }

  lemma FirstColonSplit(a: string, p: string, b: string, q: string)
    requires a + ":" + p == b + ":" + q
    requires Free(a, ':') && Free(b, ':')
    ensures a == b && p == q
  {
    var whole := a + ":" + p;
    assert whole[|a|] == ':' && whole == b + ":" + q && whole[|b|] == ':';
    assert forall i :: 0 <= i < |a| ==> whole[i] == a[i];
    assert forall i :: 0 <= i < |b| ==> whole[i] == b[i];
    assert |a| == |b|;
    assert a == whole[..|a|] && b == whole[..|b|];
    assert p == whole[|a| + 1..] && q == whole[|b| + 1..];
  }

  lemma LastColonSplit(a: string, p: string, b: string, q: string)
    requires a + ":" + p == b + ":" + q
    requires Free(p, ':') && Free(q, ':')
    ensures a == b && p == q
  {
    var whole := a + ":" + p;
    assert whole[|a|] == ':' && whole == b + ":" + q && whole[|b|] == ':';
    assert forall i :: |a| < i < |whole| ==> whole[i] == p[i - |a| - 1];
    assert forall i :: |b| < i < |whole| ==> whole[i] == q[i - |b| - 1];
    assert |a| == |b|;
    assert a == whole[..|a|] && b == whole[..|b|];
    assert p == whole[|a| + 1..] && q == whole[|b| + 1..];
  }

  lemma NumberTextFree(n: Number)
    ensures Free(n, '|')
  {
    NumberTextChars(n);
    assert '|' !in NUMBER_CHARS;
  }

  /** The part of a serialized value after its two-character tag, for the types
      whose text holds no separator. */
  function Body(v: Value): string {
    match v
    case Num(n) => n
    case Big(i) => IntText(i)
    case Bytes(b) => BytesText(b)
    case Ref(peer, counter) => peer + ":" + IntText(counter)
    case _ => ""
  }

  lemma BodyFree(v: Value)
    requires !v.Ref?
    ensures Free(Body(v), '|')
  {
    match v
    case Num(n) => NumberTextFree(n);
    case Big(i) => IntTextInjective(i, i);
    case Bytes(b) => BytesTextFree(b);
    case _ =>
  }

  /** Of two references at the front of a key one ends inside the other only where
      the longer names an unsafe peer. */
  lemma ShorterIsUnsafe(v: Value, w: Value, x: string, y: string)
    requires v.Ref? && w.Ref? && Rest(x)
    requires Body(v) + x == Body(w) + y && |Body(v)| < |Body(w)|
    ensures !SafePeer(w.peer)
  {
    var s, t := Body(v), Body(w);
    var number := ":" + IntText(w.counter);
    IntTextInjective(w.counter, w.counter);
    assert t == w.peer + number;
    assert t[|s|] == (s + x)[|s|] == x[0];
    assert (t + y)[|s| + 1] == (s + x)[|s| + 1] == x[1];
    assert forall i :: |w.peer| <= i < |t| ==> t[i] == number[i - |w.peer|];
    assert w.peer[|s|] == '|' && w.peer[..|s|] == (t + y)[..|s|] == (s + x)[..|s|] == s;
    assert s[|v.peer|..] == ":" + IntText(v.counter);
    assert EndsLikeRef(w.peer[..|s|]);
  }

  lemma RefDecodes(v: Value, w: Value, x: string, y: string)
    requires v.Ref? && w.Ref? && Legible(v) && Legible(w) && Rest(x) && Rest(y)
    requires Body(v) + x == Body(w) + y
    ensures Body(v) == Body(w) && x == y
  {
    if |Body(v)| < |Body(w)| {
      ShorterIsUnsafe(v, w, x, y);
    } else if |Body(w)| < |Body(v)| {
      ShorterIsUnsafe(w, v, y, x);
    }
    assert Body(v) == (Body(v) + x)[..|Body(v)|] && x == (Body(v) + x)[|Body(v)|..];
  }

  lemma BodyInjective(v: Value, w: Value)
    requires Body(v) == Body(w)
    requires (v.Num? && w.Num?) || (v.Big? && w.Big?) || (v.Bytes? && w.Bytes?) || (v.Ref? && w.Ref?)
    ensures v == w
  {
    match v
    case Num(n) =>
    case Big(i) => IntTextInjective(i, w.integer);
    case Bytes(b) => BytesTextInjective(b, w.bytes);
    case Ref(peer, counter) =>
      IntTextInjective(counter, w.counter);
      IntTextInjective(w.counter, counter);
      LastColonSplit(peer, IntText(counter), w.peer, IntText(w.counter));
  }

  lemma SerializedHead(v: Value)
    ensures SerializeValue(v) != []
    ensures var c := SerializeValue(v)[0];
      match v
      case Null => c == 'N'
      case Bool(b) => c == (if b then 'T' else 'F')
      case Num(_) => c == 'f'
      case Big(_) => c == 'i'
      case Str(_) => c == 's'
      case Bytes(_) => c == 'b'
      case Ref(_, _) => c == 'r'
    ensures v.Num? || v.Big? || v.Bytes? || v.Ref? ==> SerializeValue(v)[2..] == Body(v) && |SerializeValue(v)| >= 2
  {
    hide IntText, BytesText;
    if v.Num? || v.Big? || v.Bytes? || v.Ref? {
      TaggedHead(v);
    }
  }

  /** Values that are a tag, a colon and a body. */
  lemma TaggedHead(v: Value)
    requires v.Num? || v.Big? || v.Bytes? || v.Ref?
    ensures var tag := if v.Num? then "f:" else if v.Big? then "i:" else if v.Bytes? then "b:" else "r:";
      SerializeValue(v) == tag + Body(v) && SerializeValue(v)[2..] == Body(v)
  {
    hide IntText, BytesText;
    if v.Ref? {
      assert SerializeValue(v) == "r:" + Body(v);
    }
  }

  lemma Regroup(tag: string, m: string, s: string, x: string)
    ensures (tag + m + ":" + s) + x == tag + (m + ":" + (s + x))
  {
  }

  lemma StrDecodes(s: string, t: string, x: string, y: string)
    requires SerializeValue(Str(s)) + x == SerializeValue(Str(t)) + y
    ensures s == t && x == y
  {
    var m, n := IntText(|s|), IntText(|t|);
    IntTextInjective(|s|, |t|);
    IntTextInjective(|t|, |s|);
    Regroup("s:", m, s, x);
    Regroup("s:", n, t, y);
    var p, q := m + ":" + (s + x), n + ":" + (t + y);
    assert p == ("s:" + p)[2..] && q == ("s:" + q)[2..];
    FirstColonSplit(m, s + x, n, t + y);
    assert s == (s + x)[..|s|] && t == (t + y)[..|t|];
    assert x == (s + x)[|s|..] && y == (t + y)[|t|..];
  }

  lemma TaggedDecodes(v: Value, w: Value, x: string, y: string)
    requires Legible(v) && Legible(w) && Rest(x) && Rest(y)
    requires SerializeValue(v) + x == SerializeValue(w) + y
    requires (v.Num? && w.Num?) || (v.Big? && w.Big?) || (v.Bytes? && w.Bytes?) || (v.Ref? && w.Ref?)
    ensures v == w && x == y
  {
    BodyFollows(v, x);
    BodyFollows(w, y);
    if v.Ref? {
      RefDecodes(v, w, x, y);
    } else {
      BodyFree(v);
      BodyFree(w);
      CleanSplit(Body(v), Body(w), x, y);
    }
    BodyInjective(v, w);
  }

  lemma BodyFollows(v: Value, x: string)
    requires v.Num? || v.Big? || v.Bytes? || v.Ref?
    ensures |SerializeValue(v) + x| >= 2 && (SerializeValue(v) + x)[2..] == Body(v) + x
  {
    SerializedHead(v);
    AfterTag(SerializeValue(v), Body(v), x);
  }

  lemma AfterTag(key: string, body: string, x: string)
    requires |key| >= 2 && key[2..] == body
    ensures (key + x)[2..] == body + x
  {
  }

  /** A value can be read off the front of a key in only one way. */
  lemma ValueDecodes(v: Value, w: Value, x: string, y: string)
    requires Legible(v) && Legible(w) && Rest(x) && Rest(y)
    requires SerializeValue(v) + x == SerializeValue(w) + y
    ensures v == w && x == y
  {
    SerializedHead(v);
    SerializedHead(w);
    assert (SerializeValue(v) + x)[0] == SerializeValue(v)[0];
    assert (SerializeValue(w) + y)[0] == SerializeValue(w)[0];
    if v.Str? {
      StrDecodes(v.text, w.text, x, y);
    } else if v.Null? || v.Bool? {
      assert v == w;
      assert x == (SerializeValue(v) + x)[1..] && y == (SerializeValue(w) + y)[1..];
    } else {
      TaggedDecodes(v, w, x, y);
    }
  }

  /** What follows the first value in a key. */
  function After(values: Tuple): string
    requires values != []
  {
    if |values| == 1 then "" else "|" + TupleKey(values[1..])
  }

  /** The first value can be read off a key, and leaves the key of the others. */
  lemma FirstDecodes(a: Tuple, b: Tuple)
    requires AllLegible(a) && AllLegible(b) && a != [] && b != [] && TupleKey(a) == TupleKey(b)
    ensures a[0] == b[0] && TupleKey(a[1..]) == TupleKey(b[1..])
  {
    TupleKeyFront(a);
    TupleKeyFront(b);
    AfterRests(a);
    AfterRests(b);
    ValueDecodes(a[0], b[0], After(a), After(b));
    AfterIsKey(a);
    AfterIsKey(b);
  }

  lemma AfterRests(a: Tuple)
    requires a != []
    ensures Rest(After(a))
  {
    if |a| > 1 {
      TupleKeyFront(a[1..]);
      SerializedHead(a[1]);
    }
  }

  lemma AfterIsKey(a: Tuple)
    requires a != []
    ensures TupleKey(a[1..]) == if After(a) == "" then "" else After(a)[1..]
  {
  }

  lemma {:induction false} TupleKeyFront(values: Tuple)
    requires values != []
    ensures TupleKey(values) == SerializeValue(values[0]) + After(values)
  {
    hide SerializeValue;
    if |values| > 1 {
      var init := values[..|values| - 1];
      TupleKeyFront(init);
      if |values| > 2 {
        assert values[1..][..|values| - 2] == init[1..];
      }
    }
  }

  /** Distinct value sequences have distinct keys, whatever their strings hold:
      a key identifies its tuple. */
  lemma {:induction false} TupleKeyInjective(a: Tuple, b: Tuple)
    requires AllLegible(a) && AllLegible(b)
    ensures TupleKey(a) == TupleKey(b) <==> a == b
  {
    hide SerializeValue, Legible, After;
    if TupleKey(a) == TupleKey(b) {
      if a == [] || b == [] {
        if a != [] { TupleKeyFront(a); SerializedHead(a[0]); }
        if b != [] { TupleKeyFront(b); SerializedHead(b[0]); }
      } else {
        FirstDecodes(a, b);
        TupleKeyInjective(a[1..], b[1..]);
        assert a == [a[0]] + a[1..] && b == [b[0]] + b[1..];
      }
    }
  }

  lemma {:induction false} TupleKeyConcat(a: Tuple, b: Tuple)
    requires a != [] && b != []
    ensures TupleKey(a + b) == TupleKey(a) + "|" + TupleKey(b)
  {
    var init, last := b[..|b| - 1], b[|b| - 1];
    assert (a + b)[..|a + b| - 1] == a + init;
    if init != [] {
      TupleKeyConcat(a, init);
    } else {
      assert a + init == a && b == [last];
    }
  }

  lemma SameAround(before: Tuple, a: Tuple, b: Tuple, after: Tuple)
    requires a != [] && b != [] && TupleKey(a) == TupleKey(b)
    ensures TupleKey(before + a + after) == TupleKey(before + b + after)
  {
    if before != [] {
      TupleKeyConcat(before, a);
      TupleKeyConcat(before, b);
    } else {
      assert before + a == a && before + b == b;
    }
    if after != [] {
      TupleKeyConcat(before + a, after);
      TupleKeyConcat(before + b, after);
    } else {
      assert before + a + after == before + a && before + b + after == before + b;
    }
  }

  /** A peer name with a separator after what ends a reference breaks it: two
      references can be cut in two places. The tuples have one width, and share
      any values around them. */
  lemma PeersWithPipesCollide(before: Tuple, after: Tuple, p: string, c: int, s: string, k: int, u: string, l: int)
    ensures var a := before + [Ref(p + ":" + IntText(c) + "|r:" + s, k), Ref(u, l)] + after;
      var b := before + [Ref(p, c), Ref(s + ":" + IntText(k) + "|r:" + u, l)] + after;
      a != b && |a| == |b| && TupleKey(a) == TupleKey(b)
  {
    hide TupleKey, SerializeValue, IntText;
    var longFirst, longSecond := p + ":" + IntText(c) + "|r:" + s, s + ":" + IntText(k) + "|r:" + u;
    var x, y := [Ref(longFirst, k), Ref(u, l)], [Ref(p, c), Ref(longSecond, l)];
    TwoRefs(longFirst, k, u, l);
    TwoRefs(p, c, longSecond, l);
    SameCut(p + ":" + IntText(c), s, ":" + IntText(k), u, ":" + IntText(l));
    SameAround(before, x, y, after);
    assert (before + x + after)[|before|] == x[0] && (before + y + after)[|before|] == y[0];
    assert |longFirst| > |p|;
  }

  lemma TwoRefs(p: string, c: int, q: string, d: int)
    ensures TupleKey([Ref(p, c), Ref(q, d)]) == "r:" + p + ":" + IntText(c) + "|r:" + q + ":" + IntText(d)
  {
    assert [Ref(p, c), Ref(q, d)] == [Ref(p, c)] + [Ref(q, d)];
    TupleKeyConcat([Ref(p, c)], [Ref(q, d)]);
  }

  lemma SameCut(first: string, s: string, m: string, u: string, n: string)
    ensures "r:" + (first + "|r:" + s) + m + "|r:" + u + n == "r:" + first + "|r:" + (s + m + "|r:" + u) + n
  {
  }

  // ---------------------------------------------------------------------
  // Fact keys
  // ---------------------------------------------------------------------

  function FactKeyFromTupleKey(pred: string, tupleKey: string): string {
    pred + "|" + tupleKey
  }

  function FactKey(f: Fact): string {
    FactKeyFromTupleKey(f.pred, TupleKey(f.values))
  }

  /** The tuple key inside a fact key of `pred`; none when it is not one. */
  function TupleKeyFromFactKey(factKey: string, pred: string): Option<string> {
    if |factKey| > |pred| && factKey[|pred|] == '|' && factKey[..|pred|] == pred
    then Some(factKey[|pred| + 1..])
    else None
  }

  /** A key is recovered exactly when it belongs to the predicate, whatever
      characters the predicate's name holds. */
  lemma TupleKeyRecovered(factKey: string, pred: string, tupleKey: string)
    ensures TupleKeyFromFactKey(factKey, pred) == Some(tupleKey) <==> factKey == FactKeyFromTupleKey(pred, tupleKey)
  {
    var made := FactKeyFromTupleKey(pred, tupleKey);
    assert made[..|pred|] == pred && made[|pred| + 1..] == tupleKey;
    if TupleKeyFromFactKey(factKey, pred) == Some(tupleKey) {
      assert factKey == factKey[..|pred|] + [factKey[|pred|]] + factKey[|pred| + 1..];
    }
  }

  /** Facts of one predicate are told apart by their fact keys. */
  lemma FactKeyInjective(f: Fact, g: Fact)
    requires f.pred == g.pred && AllLegible(f.values) && AllLegible(g.values)
    ensures FactKey(f) == FactKey(g) <==> f == g
  {
    TupleKeyRecovered(FactKey(f), f.pred, TupleKey(f.values));
    TupleKeyRecovered(FactKey(g), f.pred, TupleKey(g.values));
    TupleKeyInjective(f.values, g.values);
  }
}
