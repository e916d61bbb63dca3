/**
  Buffers of consecutive messages, as the CA and PVA parsers read them: the messages decoded
  before the first error are returned with the error.
 */
module Stream {
  import opened Bytes
  import opened Wrappers

  datatype Parsed<+M, +E> = Parsed(msgs: seq<M>, err: Option<E>)

  /** How one message at the start of a buffer is read, and how a valid message is written. */
  datatype Codec<!M, !E> = Codec(one: seq<byte> -> Result<M, E>, encode: M -> seq<byte>, valid: M -> bool)

  /** Reading b gives m exactly when m is valid and its encoding starts b. */
  ghost predicate Reads<M, E>(c: Codec<M, E>, b: seq<byte>, m: M) {
    c.one(b) == Ok(m) <==> c.valid(m) && c.encode(m) <= b
  }

  ghost predicate Sound<M(!new), E(!new)>(c: Codec<M, E>) {
    && (forall b, m :: Reads(c, b, m))
    && (forall m :: c.valid(m) ==> c.encode(m) != [])
  }

  ghost function ParseAll<M(!new), E(!new)>(c: Codec<M, E>, b: seq<byte>): Parsed<M, E>
    requires Sound(c)
    decreases |b|
  {
    if b == [] then Parsed([], None)
    else
      match c.one(b)
      case Err(e) => Parsed([], Some(e))
      case Ok(m) =>
        assert Reads(c, b, m);
        Prepend([m], ParseAll(c, b[|c.encode(m)|..]))
  }

  function Prepend<M, E>(ms: seq<M>, p: Parsed<M, E>): Parsed<M, E> {
    Parsed(ms + p.msgs, p.err)
  }

  /** An empty buffer holds no message, which is an error of its own. */
  ghost function Parse<M(!new), E(!new)>(c: Codec<M, E>, b: seq<byte>, empty: E): Parsed<M, E>
    requires Sound(c)
  {
    if b == [] then Parsed([], Some(empty)) else ParseAll(c, b)
  }

  ghost predicate AllValid<M, E>(c: Codec<M, E>, ms: seq<M>) {
    forall m :: m in ms ==> c.valid(m)
  }

  function EncodeAll<M, E>(c: Codec<M, E>, ms: seq<M>): seq<byte> {
    if ms == [] then [] else c.encode(ms[0]) + EncodeAll(c, ms[1..])
  }

  lemma EncodeSingle<M, E>(c: Codec<M, E>, m: M)
    ensures EncodeAll(c, [m]) == c.encode(m)
  {
    assert EncodeAll(c, [m][1..]) == [];
  }

  lemma EncodeTwo<M, E>(c: Codec<M, E>, m: M, n: M)
    ensures EncodeAll(c, [m, n]) == c.encode(m) + c.encode(n)
  {
    assert [m, n][1..] == [n];
    EncodeSingle(c, n);
  }

  /** What was parsed is the encoding of what was returned; an error left a rest with no message. */
  lemma {:induction false} ParsedIsEncoded<M(!new), E(!new)>(c: Codec<M, E>, b: seq<byte>) returns (rest: seq<byte>)
    requires Sound(c)
    ensures var p := ParseAll(c, b);
            && AllValid(c, p.msgs) && b == EncodeAll(c, p.msgs) + rest
            && (p.err.None? ==> rest == [])
            && (p.err.Some? ==> rest != [] && c.one(rest) == Err(p.err.value))
    decreases |b|
  {
    rest := b;
    if b != [] && c.one(b).Ok? {
      var m := c.one(b).value;
      assert Reads(c, b, m);
      var tail := b[|c.encode(m)|..];
      rest := ParsedIsEncoded(c, tail);
      var p := ParseAll(c, b);
      assert p.msgs[1..] == ParseAll(c, tail).msgs && p.msgs[0] == m;
      assert b == c.encode(m) + tail;
    }
  }

  lemma ParseStep<M(!new), E(!new)>(c: Codec<M, E>, m: M, tail: seq<byte>)
    requires Sound(c) && c.valid(m)
    ensures ParseAll(c, c.encode(m) + tail) == Prepend([m], ParseAll(c, tail))
  {
    var b := c.encode(m) + tail;
    assert c.encode(m) <= b && Reads(c, b, m);
    assert b[|c.encode(m)|..] == tail;
  }

  /** Parsing reads an encoded list back and goes on with what follows it. */
  lemma {:induction false} EncodedParses<M(!new), E(!new)>(c: Codec<M, E>, ms: seq<M>, rest: seq<byte>)
    requires Sound(c) && AllValid(c, ms)
    ensures ParseAll(c, EncodeAll(c, ms) + rest) == Prepend(ms, ParseAll(c, rest))
  {
    if ms == [] {
      assert EncodeAll(c, ms) + rest == rest;
      assert ms + ParseAll(c, rest).msgs == ParseAll(c, rest).msgs;
    } else {
      var tail := EncodeAll(c, ms[1..]) + rest;
      assert EncodeAll(c, ms) + rest == c.encode(ms[0]) + tail;
      EncodedParses(c, ms[1..], rest);
      ParseStep(c, ms[0], tail);
      assert [ms[0]] + (ms[1..] + ParseAll(c, rest).msgs) == ms + ParseAll(c, rest).msgs;
    }
  }

  /** What a parsing loop has done when it stands at offset off with the messages out. */
  ghost predicate ParsedTo<M(!new), E(!new)>(c: Codec<M, E>, b: seq<byte>, off: nat, out: seq<M>)
    requires Sound(c)
  {
    off <= |b| && ParseAll(c, b) == Prepend(out, ParseAll(c, b[off..])) && (out == [] <==> off == 0)
  }

  lemma LoopStarts<M(!new), E(!new)>(c: Codec<M, E>, b: seq<byte>)
    requires Sound(c)
    ensures ParsedTo(c, b, 0, [])
  {
    assert b[0..] == b;
    assert [] + ParseAll(c, b).msgs == ParseAll(c, b).msgs;
  }

  lemma LoopAdvances<M(!new), E(!new)>(c: Codec<M, E>, b: seq<byte>, off: nat, out: seq<M>, m: M, end: nat)
    requires Sound(c) && ParsedTo(c, b, off, out) && c.one(b[off..]) == Ok(m)
    requires end == off + |c.encode(m)|
    ensures ParsedTo(c, b, end, out + [m])
  {
    var rest := b[off..];
    assert Reads(c, rest, m);
    var tail := rest[|c.encode(m)|..];
    assert rest == c.encode(m) + tail && tail == b[end..];
    ParseStep(c, m, tail);
    assert out + ([m] + ParseAll(c, tail).msgs) == (out + [m]) + ParseAll(c, tail).msgs;
  }

  lemma LoopStops<M(!new), E(!new)>(c: Codec<M, E>, b: seq<byte>, off: nat, out: seq<M>, empty: E)
    requires Sound(c) && ParsedTo(c, b, off, out)
    ensures off < |b| && c.one(b[off..]).Err? ==> Parse(c, b, empty) == Parsed(out, Some(c.one(b[off..]).error))
    ensures off == |b| ==> Parse(c, b, empty) == if out == [] then Parsed([], Some(empty)) else Parsed(out, None)
  {
    assert out + [] == out;
  }

  /** A parse succeeds with ms exactly when the buffer is the nonempty encoding of ms. */
  lemma ParsesExactly<M(!new), E(!new)>(c: Codec<M, E>, b: seq<byte>, empty: E, ms: seq<M>)
    requires Sound(c)
    ensures Parse(c, b, empty) == Parsed(ms, None) <==> ms != [] && AllValid(c, ms) && b == EncodeAll(c, ms)
  {
    if b != [] {
      var rest := ParsedIsEncoded(c, b);
      if Parse(c, b, empty) == Parsed(ms, None) {
        assert EncodeAll(c, ms) + [] == EncodeAll(c, ms);
      }
    }
    if ms != [] && AllValid(c, ms) && b == EncodeAll(c, ms) {
      assert c.valid(ms[0]) && c.encode(ms[0]) != [];
      EncodedParses(c, ms, []);
      assert EncodeAll(c, ms) + [] == EncodeAll(c, ms) && ms + [] == ms;
    }
  }

  /** A parsable buffer followed by a nonempty one parses to both message lists. */
  lemma ParseComposes<M(!new), E(!new)>(c: Codec<M, E>, a: seq<byte>, b: seq<byte>, empty: E)
    requires Sound(c) && Parse(c, a, empty).err.None? && b != []
    ensures Parse(c, a + b, empty) == Prepend(Parse(c, a, empty).msgs, Parse(c, b, empty))
  {
    var ms := Parse(c, a, empty).msgs;
    ParsesExactly(c, a, empty, ms);
    EncodedParses(c, ms, b);
  }

  /** The messages returned with an error are maximal: no valid message continues them. */
  lemma ErrorPrefixMaximal<M(!new), E(!new)>(c: Codec<M, E>, b: seq<byte>, empty: E, m: M)
    requires Sound(c) && Parse(c, b, empty).err.Some? && c.valid(m)
    ensures var ms := Parse(c, b, empty).msgs;
            && AllValid(c, ms) && EncodeAll(c, ms) <= b
            && !(EncodeAll(c, ms) + c.encode(m) <= b)
  {
    if b == [] {
      assert EncodeAll(c, []) == [] && c.encode(m) != [];
    } else {
      var rest := ParsedIsEncoded(c, b);
      var all := EncodeAll(c, Parse(c, b, empty).msgs);
      assert Reads(c, rest, m);
      AppendedPrefix(all, c.encode(m), rest);
    }
  }

  lemma AppendedPrefix(all: seq<byte>, x: seq<byte>, rest: seq<byte>)
    ensures all + x <= all + rest <==> x <= rest
  {
    var b, y := all + rest, all + x;
    assert b[|all|..] == rest && y[|all|..] == x;
    if y <= b {
      assert b[..|y|][|all|..] == rest[..|x|];
    }
  }

  // ---------------------------------------------------------------- messages and a rest

  /** No valid message starts the buffer. */
  ghost predicate NoMessage<M(!new), E(!new)>(c: Codec<M, E>, b: seq<byte>) {
    forall m :: c.valid(m) ==> !(c.encode(m) <= b)
  }

  /** The buffer is the encoding of the messages and a rest that holds no further one. */
  ghost predicate Splits<M(!new), E(!new)>(c: Codec<M, E>, b: seq<byte>, ms: seq<M>, rest: seq<byte>) {
    AllValid(c, ms) && b == EncodeAll(c, ms) + rest && (rest == [] || NoMessage(c, rest))
  }

  /** Every buffer splits. */
  lemma EveryBufferSplits<M(!new), E(!new)>(c: Codec<M, E>, b: seq<byte>) returns (ms: seq<M>, rest: seq<byte>)
    requires Sound(c)
    ensures Splits(c, b, ms, rest)
  {
    rest := ParsedIsEncoded(c, b);
    ms := ParseAll(c, b).msgs;
    forall m | c.valid(m) && rest != [] ensures !(c.encode(m) <= rest) {
      assert Reads(c, rest, m);
    }
  }

  lemma NoMessageParses<M(!new), E(!new)>(c: Codec<M, E>, b: seq<byte>)
    requires Sound(c) && b != [] && NoMessage(c, b)
    ensures ParseAll(c, b).msgs == [] && ParseAll(c, b).err.Some?
  {
    forall m ensures c.one(b) != Ok(m) {
      assert Reads(c, b, m);
    }
    assert c.one(b).Ok? ==> c.one(b) == Ok(c.one(b).value);
  }

  /** The messages a buffer splits into are those it parses to, and a rest is an error. */
  lemma SplitParses<M(!new), E(!new)>(c: Codec<M, E>, b: seq<byte>, empty: E, ms: seq<M>, rest: seq<byte>)
    requires Sound(c) && Splits(c, b, ms, rest)
    ensures Parse(c, b, empty).msgs == ms
    ensures ms != [] ==> (Parse(c, b, empty).err.None? <==> rest == [])
  {
    if ms != [] {
      assert ms[0] in ms && c.encode(ms[0]) != [];
    }
    EncodedParses(c, ms, rest);
    if rest != [] {
      NoMessageParses(c, rest);
    }
  }

  /** A successful parse splits the buffer without a rest. */
  lemma ParsedSplits<M(!new), E(!new)>(c: Codec<M, E>, b: seq<byte>, empty: E, ms: seq<M>)
    requires Sound(c) && Parse(c, b, empty) == Parsed(ms, None)
    ensures Splits(c, b, ms, [])
  {
    ParsesExactly(c, b, empty, ms);
    assert EncodeAll(c, ms) + [] == EncodeAll(c, ms);
  }
}
