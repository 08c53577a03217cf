/** Storage keys (random.go). */
module Random {
  import opened Common

  const KEY_LENGTH := 28

  /** "0".."9" then "a".."z". */
  function Symbol(i: int): Byte
    requires 0 <= i < 36
  {
    if i < 10 then 48 + i else 87 + i
  }

  predicate IsBase36(c: Byte) { 48 <= c <= 57 || 97 <= c <= 122 }

  predicate IsKey(s: Bytes) { forall i :: 0 <= i < |s| ==> IsBase36(s[i]) }

  /**
   * The output for the given random bytes and stream of redraws, with what is left of the stream; none if it runs
   * dry.
   */
  function Base36(raw: Bytes, draws: seq<nat>): (r: Option<(Bytes, seq<nat>)>)
    ensures r.Some? ==> |r.value.0| == |raw| && IsKey(r.value.0)
  {
    if raw == [] then Some(([], draws))
    else if raw[0] % 64 < 36 then Prepend(Symbol(raw[0] % 64), Base36(raw[1..], draws))
    else if draws == [] then None
    else Prepend(Symbol(draws[0] % 36), Base36(raw[1..], draws[1..]))
  }

  function Prepend(c: Byte, r: Option<(Bytes, seq<nat>)>): Option<(Bytes, seq<nat>)> {
    if r.None? then None else Some(([c] + r.value.0, r.value.1))
  }

  function Prefixed(out: Bytes, r: Option<(Bytes, seq<nat>)>): Option<(Bytes, seq<nat>)> {
    if r.None? then None else Some((out + r.value.0, r.value.1))
  }

  lemma PrefixedPrepend(out: Bytes, c: Byte, r: Option<(Bytes, seq<nat>)>)
    ensures Prefixed(out, Prepend(c, r)) == Prefixed(out + [c], r)
  {
    if r.Some? {
      Assoc(out, [c], r.value.0);
    }
  }

  lemma StartOf(raw: Bytes, draws: seq<nat>)
    ensures Base36(raw, draws) == Prefixed([], Base36(raw[0..], draws))
  {
    assert raw[0..] == raw;
    if Base36(raw, draws).Some? {
      assert [] + Base36(raw, draws).value.0 == Base36(raw, draws).value.0;
    }
  }

  lemma Base36Step(raw: Bytes, i: nat, draws: seq<nat>)
    requires i < |raw|
    ensures
      Base36(raw[i..], draws)
      == if raw[i] % 64 < 36 then Prepend(Symbol(raw[i] % 64), Base36(raw[i + 1..], draws))
         else if draws == [] then None
         else Prepend(Symbol(draws[0] % 36), Base36(raw[i + 1..], draws[1..]))
  {
    assert raw[i..][1..] == raw[i + 1..];
  }

  /** The randomness still to come: bytes, and numbers for the redraws. */
  datatype Source = Source(bytes: Bytes, numbers: seq<nat>)

  /** A source that plays back its randomness and fails when it has no more. */
  class RandomSource {
    var bytes: Bytes
    var numbers: seq<nat>

    function State(): Source
      reads this
    {
      Source(bytes, numbers)
    }

    constructor (bytes: Bytes, numbers: seq<nat>)
      ensures this.bytes == bytes && this.numbers == numbers
    {
      this.bytes, this.numbers := bytes, numbers;
    }

    method RandomBytes(n: nat) returns (r: Result<Bytes>)
      modifies this`bytes
      ensures |old(bytes)| < n ==> r == Err(NoRandomness) && bytes == old(bytes)
      ensures n <= |old(bytes)| ==> r == Ok(old(bytes)[..n]) && bytes == old(bytes)[n..]
    {
      if |bytes| < n {
        return Err(NoRandomness);
      }
      r := Ok(bytes[..n]);
      bytes := bytes[n..];
    }

    method RandomNumber(max: nat) returns (r: Result<nat>)
      requires max > 0
      modifies this`numbers
      ensures old(numbers) == [] ==> r == Err(NoRandomness) && numbers == []
      ensures old(numbers) != [] ==> r == Ok(old(numbers)[0] % max) && numbers == old(numbers)[1..]
    {
      if numbers == [] {
        return Err(NoRandomness);
      }
      r := Ok(numbers[0] % max);
      numbers := numbers[1..];
    }
  }

  /** What a source yields for `n` characters and what is left of it: a failure keeps the bytes it has drawn. */
  function Draw(s: Source, n: nat): (Result<Bytes>, Source) {
    if |s.bytes| < n then (Err(NoRandomness), s)
    else
      var out := Base36(s.bytes[..n], s.numbers);
      if out.None? then (Err(NoRandomness), Source(s.bytes[n..], []))
      else (Ok(out.value.0), Source(s.bytes[n..], out.value.1))
  }

  /** base36, draw by draw. */
  method GenerateBase36(src: RandomSource, n: nat) returns (r: Result<Bytes>)
    modifies src
    ensures (r, src.State()) == Draw(old(src.State()), n)
    ensures r.Ok? ==> |r.value| == n && IsKey(r.value)
  {
    var drawn := src.RandomBytes(n);
    if drawn.Err? {
      return drawn;
    }
    var raw := drawn.value;
    var out: Bytes := [];
    StartOf(raw, src.numbers);
    for i := 0 to n
      invariant |out| == i && src.bytes == old(src.bytes)[n..]
      invariant Base36(raw, old(src.numbers)) == Prefixed(out, Base36(raw[i..], src.numbers))
    {
      Base36Step(raw, i, src.numbers);
      var idx: nat := raw[i] % 64;
      if idx >= 36 {
        var redrawn := src.RandomNumber(36);
        if redrawn.Err? {
          assert Prefixed(out, Base36(raw[i..], src.numbers)).None?;
          return Err(NoRandomness);
        }
        idx := redrawn.value;
      }
      PrefixedPrepend(out, Symbol(idx), Base36(raw[i + 1..], src.numbers));
      out := out + [Symbol(idx)];
    }
    assert out + [] == out;
    return Ok(out);
  }

  method GenerateKey(src: RandomSource) returns (r: Result<Bytes>)
    modifies src
    ensures (r, src.State()) == Draw(old(src.State()), KEY_LENGTH)
    ensures r.Ok? ==> |r.value| == 28 && IsKey(r.value)
  {
    r := GenerateBase36(src, KEY_LENGTH);
  }

  // ---------------------------------------------------------- which character

  /** The alphabet: digits, then lower-case letters. */
  lemma Base36Alphabet(i: nat)
    requires i < 36
    ensures Symbol(i) == if i < 10 then '0' as int + i else 'a' as int + (i - 10)
  {
  }

  /** How many of the bytes have to be drawn again. */
  function Redraws(raw: Bytes): nat {
    if raw == [] then 0 else (if raw[0] % 64 < 36 then 0 else 1) + Redraws(raw[1..])
  }

  /**
   * Each byte modulo 64 picks its character, or, from 36 on, the next number drawn does; the numbers are used in
   * order.
   */
  lemma {:induction false} CharacterAt(raw: Bytes, draws: seq<nat>, i: nat)
    requires i < |raw| && Base36(raw, draws).Some?
    ensures
      var n, out := Redraws(raw[..i]), Base36(raw, draws).value.0;
      if raw[i] % 64 < 36 then out[i] == Symbol(raw[i] % 64) else n < |draws| && out[i] == Symbol(draws[n] % 36)
  {
    if i > 0 {
      assert raw[..i][0] == raw[0] && raw[..i][1..] == raw[1..][..i - 1];
      if raw[0] % 64 < 36 {
        CharacterAt(raw[1..], draws, i - 1);
      } else {
        CharacterAt(raw[1..], draws[1..], i - 1);
      }
    }
  }

  /** It fails exactly if there are fewer numbers than bytes to draw again, and leaves those it has not used. */
  lemma {:induction false} LeftOver(raw: Bytes, draws: seq<nat>)
    ensures Base36(raw, draws).Some? <==> Redraws(raw) <= |draws|
    ensures Base36(raw, draws).Some? ==> Base36(raw, draws).value.1 == draws[Redraws(raw)..]
  {
    if raw != [] {
      if raw[0] % 64 < 36 {
        LeftOver(raw[1..], draws);
      } else if draws != [] {
        LeftOver(raw[1..], draws[1..]);
      }
    }
  }

  // -------------------------------------------------------------- uniformity

  function Power(b: nat, k: nat): nat { if k == 0 then 1 else b * Power(b, k - 1) }

  /** All sequences of `n` numbers below `max`. */
  ghost function Sequences(n: nat, max: nat): set<seq<nat>> {
    if n == 0 then {[]} else set x: nat, s | 0 <= x < max && s in Sequences(n - 1, max) :: [x] + s
  }

  lemma {:induction false} SequencesAre(n: nat, max: nat, s: seq<nat>)
    ensures s in Sequences(n, max) <==> |s| == n && forall i :: 0 <= i < n ==> s[i] < max
  {
    if n != 0 {
      if |s| > 0 {
        SequencesAre(n - 1, max, s[1..]);
        assert s == [s[0]] + s[1..];
      }
      if s in Sequences(n, max) {
        var x: nat, t :| 0 <= x < max && t in Sequences(n - 1, max) && s == [x] + t;
        assert s[1..] == t;
      }
    }
  }

  /** A choice of every random byte and of a stream of redraws. */
  type Choice = (seq<nat>, seq<nat>)

  predicate AreBytes(s: seq<nat>) { forall i :: 0 <= i < |s| ==> s[i] < 256 }

  /** The choices of |key| bytes and `m` redraws that make base36 output `key`. */
  ghost function Producing(key: Bytes, m: nat): set<Choice> {
    set raw, draws
      | raw in Sequences(|key|, 256) && draws in Sequences(m, 36) && Produces(raw, draws, key)
      :: (raw, draws)
  }

  predicate Produces(raw: seq<nat>, draws: seq<nat>, key: Bytes) {
    AreBytes(raw) && Base36(raw, draws).Some? && Base36(raw, draws).value.0 == key
  }

  ghost function Range(lo: nat, hi: nat): set<nat>
    decreases hi
  {
    if lo >= hi then {} else Range(lo, hi - 1) + {hi - 1}
  }

  lemma {:induction false} RangeIs(lo: nat, hi: nat)
    ensures forall x :: x in Range(lo, hi) <==> lo <= x < hi
    ensures lo <= hi ==> |Range(lo, hi)| == hi - lo
    decreases hi
  {
    if lo < hi {
      RangeIs(lo, hi - 1);
    }
  }

  ghost function Direct(i: int): set<nat> { set b | b in Range(0, 256) && b % 64 == i }
  ghost function Redrawn(): set<nat> { set b | b in Range(0, 256) && b % 64 >= 36 }

  lemma DirectSize(i: nat)
    requires i < 36
    ensures |Direct(i)| == 4
  {
    hide Range;
    RangeIs(0, 256);
    assert Direct(i) == {i, i + 64, i + 128, i + 192};
  }

  lemma RedrawnSize()
    ensures |Redrawn()| == 112
  {
    hide Range;
    var a, b, c, d := Range(36, 64), Range(100, 128), Range(164, 192), Range(228, 256);
    RangeIs(0, 256);
    RangeIs(36, 64);
    RangeIs(100, 128);
    RangeIs(164, 192);
    RangeIs(228, 256);
    assert a !! b && a + b !! c && a + b + c !! d;
    assert forall x: nat :: x in Redrawn() <==> x in a + b + c + d;
    assert Redrawn() == a + b + c + d;
  }

  ghost function Product(t: set<nat>, c: set<Choice>): set<(nat, Choice)> {
    set x, y | x in t && y in c :: (x, y)
  }

  lemma {:induction false} ProductSize(t: set<nat>, c: set<Choice>)
    ensures |Product(t, c)| == |t| * |c|
    decreases |t|
  {
    if t == {} {
      assert Product(t, c) == {};
    } else {
      hide Product;
      var x :| x in t;
      ProductSize(t - {x}, c);
      RowSize(x, c);
      SplitProduct(t, x, c);
      assert |t| * |c| == (|t| - 1) * |c| + |c|;
    }
  }

  lemma SplitProduct(t: set<nat>, x: nat, c: set<Choice>)
    requires x in t
    ensures Product(t, c) == Product(t - {x}, c) + Product({x}, c)
    ensures Product(t - {x}, c) !! Product({x}, c)
  {
  }

  lemma {:induction false} RowSize(x: nat, c: set<Choice>)
    ensures |Product({x}, c)| == |c|
    decreases |c|
  {
    if c == {} {
      assert Product({x}, c) == {};
    } else {
      var y :| y in c;
      RowSize(x, c - {y});
      assert Product({x}, c) == Product({x}, c - {y}) + {(x, y)};
    }
  }

  lemma {:induction false} ImageSize(s: set<(nat, Choice)>, image: set<Choice>, f: ((nat, Choice)) -> Choice)
    requires image == set p | p in s :: f(p)
    requires forall p, q :: p in s && q in s && f(p) == f(q) ==> p == q
    ensures |image| == |s|
    decreases |s|
  {
    if s != {} {
      var p :| p in s;
      ImageSize(s - {p}, image - {f(p)}, f);
    }
  }

  function KeepDraws(p: (nat, Choice)): Choice { ([p.0] + p.1.0, p.1.1) }

  function AddDraw(i: nat, p: (nat, Choice)): Choice { ([p.0] + p.1.0, [i] + p.1.1) }

  function MoreDraws(p: (nat, Choice)): Choice { (p.1.0, [p.0] + p.1.1) }

  lemma ImagesInjective(i: nat)
    ensures forall p, q :: KeepDraws(p) == KeepDraws(q) ==> p == q
    ensures forall p, q :: AddDraw(i, p) == AddDraw(i, q) ==> p == q
    ensures forall p, q :: MoreDraws(p) == MoreDraws(q) ==> p == q
  {
    forall x: nat, s: seq<nat>, y: nat, t: seq<nat> | [x] + s == [y] + t
      ensures x == y && s == t
    {
      assert ([x] + s)[0] == x && ([x] + s)[1..] == s && ([y] + t)[1..] == t;
    }
  }

  lemma InProducing(raw: seq<nat>, draws: seq<nat>, key: Bytes, m: nat)
    ensures
      (raw, draws) in Producing(key, m)
      <==> |raw| == |key| && |draws| == m && (forall i :: 0 <= i < m ==> draws[i] < 36) && Produces(raw, draws, key)
  {
    SequencesAre(|key|, 256, raw);
    SequencesAre(m, 36, draws);
  }

  lemma Extended(image: set<Choice>, t: set<nat>, c: set<Choice>, f: ((nat, Choice)) -> Choice)
    requires image == set p | p in Product(t, c) :: f(p)
    requires forall p, q :: f(p) == f(q) ==> p == q
    ensures |image| == |t| * |c|
  {
    ProductSize(t, c);
    ImageSize(Product(t, c), image, f);
  }

  lemma HeadAndTail(s: seq<nat>)
    requires s != []
    ensures s == [s[0]] + s[1..]
  {
  }

  /** With nothing to output every stream of redraws will do. */
  lemma {:induction false} NoOutput(m: nat)
    ensures |Producing([], m)| == Power(36, m)
  {
    hide Range;
    if m == 0 {
      forall raw: seq<nat>, draws: seq<nat> {
        InProducing(raw, draws, [], 0);
      }
      assert Producing([], 0) == {([], [])};
    } else {
      var image := set x | x in Product(Range(0, 36), Producing([], m - 1)) :: MoreDraws(x);
      RangeIs(0, 36);
      NoOutput(m - 1);
      forall c: Choice ensures c in Producing([], m) <==> c in image {
        InProducing(c.0, c.1, [], m);
        if c.1 != [] {
          HeadAndTail(c.1);
          InProducing(c.0, c.1[1..], [], m - 1);
          assert c == MoreDraws((c.1[0], (c.0, c.1[1..])));
        }
      }
      assert Producing([], m) == image;
      ImagesInjective(0);
      Extended(image, Range(0, 36), Producing([], m - 1), MoreDraws);
    }
  }

  /** The position of a base36 character in the alphabet. */
  function Index(c: Byte): (i: nat)
    requires IsBase36(c)
    ensures i < 36 && Symbol(i) == c
  {
    if c <= 57 then c - 48 else c - 87
  }

  lemma SymbolInjective(i: nat, c: Byte)
    requires i < 36 && IsBase36(c)
    ensures Symbol(i) == c <==> i == Index(c)
  {
  }

  /** Choices whose first byte picks the first character outright. */
  ghost function WithoutRedraw(c: Byte, rest: Bytes, m: nat): set<Choice>
    requires IsBase36(c)
  {
    set p | p in Product(Direct(Index(c)), Producing(rest, m)) :: KeepDraws(p)
  }

  /** Choices whose first byte is out of range and whose first redraw picks the first character. */
  ghost function WithRedraw(c: Byte, rest: Bytes, m: nat): set<Choice>
    requires IsBase36(c) && m > 0
  {
    set p | p in Product(Redrawn(), Producing(rest, m - 1)) :: AddDraw(Index(c), p)
  }

  /** One round of base36 read backwards: when the output starts with `c`. */
  lemma ProducesFirst(raw: seq<nat>, draws: seq<nat>, c: Byte, rest: Bytes)
    requires IsBase36(c) && raw != [] && raw[0] < 256 && (forall i :: 0 <= i < |draws| ==> draws[i] < 36)
    ensures
      Produces(raw, draws, [c] + rest)
      <==> if raw[0] % 64 < 36 then raw[0] % 64 == Index(c) && Produces(raw[1..], draws, rest)
           else draws != [] && draws[0] == Index(c) && Produces(raw[1..], draws[1..], rest)
  {
    HeadAndTail(raw);
    if AreBytes(raw[1..]) {
      assert AreBytes(raw);
      if raw[0] % 64 < 36 {
        SymbolInjective(raw[0] % 64, c);
      } else if draws != [] {
        SymbolInjective(draws[0], c);
      }
      assert ([c] + rest)[1..] == rest;
    }
  }

  lemma InFirst(c: Choice, k: Byte, rest: Bytes, m: nat)
    requires IsBase36(k) && m > 0
    ensures c in Producing([k] + rest, m) <==> c in WithoutRedraw(k, rest, m) || c in WithRedraw(k, rest, m)
    ensures !(c in WithoutRedraw(k, rest, m) && c in WithRedraw(k, rest, m))
  {
    hide Range, Base36;
    var (raw, draws) := c;
    RangeIs(0, 256);
    InProducing(raw, draws, [k] + rest, m);
    if raw != [] {
      HeadAndTail(raw);
      InProducing(raw[1..], draws, rest, m);
      assert c in WithoutRedraw(k, rest, m) <==>
        raw[0] in Direct(Index(k)) && (raw[1..], draws) in Producing(rest, m) by {
        assert c == KeepDraws((raw[0], (raw[1..], draws)));
        ImagesInjective(0);
      }
      if draws != [] {
        HeadAndTail(draws);
        InProducing(raw[1..], draws[1..], rest, m - 1);
        assert c in WithRedraw(k, rest, m)
          <==> raw[0] in Redrawn() && draws[0] == Index(k) && (raw[1..], draws[1..]) in Producing(rest, m - 1) by {
          assert c == AddDraw(draws[0], (raw[0], (raw[1..], draws[1..])));
          ImagesInjective(draws[0]);
        }
      }
      if raw[0] < 256 && (forall i :: 0 <= i < |draws| ==> draws[i] < 36) {
        ProducesFirst(raw, draws, k, rest);
      }
    }
  }

  lemma FirstCharacter(c: Byte, rest: Bytes, m: nat)
    requires IsBase36(c) && m > 0
    ensures |Producing([c] + rest, m)| == 4 * |Producing(rest, m)| + 112 * |Producing(rest, m - 1)|
  {
    hide Range, Producing, Base36;
    var a, b := WithoutRedraw(c, rest, m), WithRedraw(c, rest, m);
    forall x: Choice ensures (x in Producing([c] + rest, m) <==> x in a || x in b) && !(x in a && x in b) {
      InFirst(x, c, rest, m);
    }
    assert Producing([c] + rest, m) == a + b && a !! b;
    ImagesInjective(Index(c));
    DirectSize(Index(c));
    RedrawnSize();
    Extended(a, Direct(Index(c)), Producing(rest, m), KeepDraws);
    Extended(b, Redrawn(), Producing(rest, m - 1), (p: (nat, Choice)) => AddDraw(Index(c), p));
  }

  /** Four direct bytes leave 36 times the redraws; 112 redrawn bytes use one up: 144 + 112 = 256. */
  lemma Weights(p: nat, q: nat, x: nat, y: nat)
    requires x == p * (36 * q) && y == p * q
    ensures 4 * x + 112 * y == (256 * p) * q
  {
    assert p * (36 * q) == 36 * (p * q);
    assert (256 * p) * q == 256 * (p * q);
  }

  /**
   * Of all choices of n bytes and m >= n redraws, every key of length n comes from 256^n * 36^(m-n): base36 is
   * unbiased.
   */
  lemma {:induction false} Uniform(key: Bytes, m: nat)
    requires IsKey(key) && |key| <= m
    ensures |Producing(key, m)| == Power(256, |key|) * Power(36, m - |key|)
  {
    hide Producing;
    if key == [] {
      NoOutput(m);
    } else {
      var c, rest := key[0], key[1..];
      assert key == [c] + rest;
      FirstCharacter(c, rest, m);
      Uniform(rest, m);
      Uniform(rest, m - 1);
      Weights(Power(256, |rest|), Power(36, m - |key|), |Producing(rest, m)|, |Producing(rest, m - 1)|);
    }
  }
}
