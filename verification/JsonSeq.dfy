/** The JSON text sequence codec of NRTMv4, after RFC 7464: items behind record separators, read in chunks. */
module JsonSeq {
  import opened Store
  import opened Text

  newtype byte = x: int | 0 <= x < 256

  const RS: byte := 0x1e
  const LF: byte := 0x0a

  type Bytes = seq<byte>

  /** The items that were decoded, and whether the next one could not be. */
  datatype Decoded<T> = Decoded(items: seq<T>, failed: bool)

  function NonEmpty(parts: seq<Bytes>): seq<Bytes> {
    if parts == [] then []
    else (if parts[0] == [] then [] else [parts[0]]) + NonEmpty(parts[1..])
  }

  /** Loads texts one by one, up to the first that is not valid. */
  function LoadAll<T>(loads: Bytes -> Option<T>, parts: seq<Bytes>): Decoded<T> {
    if parts == [] then Decoded([], false)
    else if loads(parts[0]) == None then Decoded([], true)
    else
      var rest := LoadAll(loads, parts[1..]);
      Decoded([loads(parts[0]).value] + rest.items, rest.failed)
  }

  /** The items of a byte string: what is not empty between its record separators. */
  function DecodeBytes<T>(loads: Bytes -> Option<T>, input: Bytes): Decoded<T> {
    LoadAll(loads, NonEmpty(Split(input, RS)))
  }

  function Concat(chunks: seq<Bytes>): Bytes {
    if chunks == [] then [] else chunks[0] + Concat(chunks[1..])
  }

  function Behind<T>(before: seq<T>, rest: Decoded<T>): Decoded<T> {
    Decoded(before + rest.items, rest.failed)
  }

  /** The items before the last separator. */
  function Complete<T>(loads: Bytes -> Option<T>, buffer: Bytes): Decoded<T> {
    var parts := Split(buffer, RS);
    if RS in buffer then LoadAll(loads, NonEmpty(parts[..|parts| - 1])) else Decoded([], false)
  }

  /** What is behind the last separator. */
  function Incomplete(buffer: Bytes): Bytes {
    var parts := Split(buffer, RS);
    if RS in buffer then parts[|parts| - 1] else buffer
  }

  class Decoder<T(!new, ==)> {
    const loads: Bytes -> Option<T>
    var buffer: Bytes
    var items: seq<T>
    var failed: bool

    constructor (loads: Bytes -> Option<T>)
      ensures this.loads == loads && buffer == [] && items == [] && !failed
    {
      this.loads, buffer, items, failed := loads, [], [], false;
    }

    /** Yields the complete items in the buffer and keeps what is behind the last separator. */
    method YieldBuffer()
      requires !failed
      modifies this
      ensures Decoded(items, failed) == Behind(old(items), Complete(loads, old(buffer)))
      ensures buffer == Incomplete(old(buffer))
    {
      while RS in buffer && !failed
        invariant Incomplete(buffer) == Incomplete(old(buffer))
        invariant if failed then buffer == Incomplete(buffer) && Decoded(items, true) == Behind(old(items), Complete(loads, old(buffer)))
                  else Behind(items, Complete(loads, buffer)) == Behind(old(items), Complete(loads, old(buffer)))
        decreases RS in buffer
      {
        var parts := Split(buffer, RS);
        PiecesHaveNoSeparator(buffer, RS);
        buffer := parts[|parts| - 1];
        YieldSequences(parts[..|parts| - 1]);
      }
    }

    method YieldSequences(sequences: seq<Bytes>)
      requires !failed
      modifies this`items, this`failed
      ensures Decoded(items, failed) == Behind(old(items), LoadAll(loads, NonEmpty(sequences)))
    {
      var i := 0;
      while i < |sequences|
        invariant i <= |sequences| && !failed
        invariant Behind(items, LoadAll(loads, NonEmpty(sequences[i..])))
               == Behind(old(items), LoadAll(loads, NonEmpty(sequences)))
      {
        LoadNext(loads, sequences[i..], items);
        assert sequences[i..][0] == sequences[i] && sequences[i..][1..] == sequences[i + 1..];
        if sequences[i] != [] {
          var item := loads(sequences[i]);
          if item == None {
            failed := true;
            return;
          }
          items := items + [item.value];
        }
        i := i + 1;
      }
    }

    /** The result depends only on the bytes, not on how they are cut into chunks. */
    method Decode(chunks: seq<Bytes>)
      requires buffer == [] && items == [] && !failed
      modifies this
      ensures Decoded(items, failed) == DecodeBytes(loads, Concat(chunks))
    {
      BehindNothing(DecodeBytes(loads, Concat(chunks)));
      assert [] + Concat(chunks) == Concat(chunks);
      for i := 0 to |chunks|
        invariant !failed
        invariant Behind(items, DecodeBytes(loads, buffer + Concat(chunks[i..]))) == DecodeBytes(loads, Concat(chunks))
      {
        assert chunks[i..][0] == chunks[i] && chunks[i..][1..] == chunks[i + 1..];
        ReadChunk(chunks[i], Concat(chunks[i + 1..]));
        if failed { return; }
      }
      assert buffer + [] == buffer;
      ReadEnd();
    }

    method ReadChunk(chunk: Bytes, ghost rest: Bytes)
      requires !failed
      modifies this
      ensures var whole := Behind(old(items), DecodeBytes(loads, old(buffer) + (chunk + rest)));
              if failed then Decoded(items, true) == whole else Behind(items, DecodeBytes(loads, buffer + rest)) == whole
    {
      assert buffer + (chunk + rest) == (buffer + chunk) + rest;
      buffer := buffer + chunk;
      ChunkBehind(loads, buffer, rest, items);
      YieldBuffer();
    }

    method ReadEnd()
      requires !failed
      modifies this
      ensures Decoded(items, failed) == Behind(old(items), DecodeBytes(loads, old(buffer)))
    {
      ChunkBehind(loads, buffer, [], items);
      assert buffer + [] == buffer && Incomplete(buffer) + [] == Incomplete(buffer);
      IncompleteIsLast(buffer);
      YieldBuffer();
      if failed { return; }
      YieldLast();
    }

    method YieldLast()
      requires !failed && RS !in buffer
      modifies this`items, this`failed
      ensures Decoded(items, failed) == Behind(old(items), DecodeBytes(loads, buffer))
    {
      OnlyPart(buffer);
      if buffer != [] {
        YieldSequences([buffer]);
      } else {
        assert items + [] == items;
      }
    }
  }

  lemma IncompleteIsLast(buffer: Bytes)
    ensures RS !in Incomplete(buffer)
  {
    var parts := Split(buffer, RS);
    PiecesHaveNoSeparator(buffer, RS);
  }

  lemma LoadNext<T>(loads: Bytes -> Option<T>, sequences: seq<Bytes>, before: seq<T>)
    requires sequences != []
    ensures var rest := LoadAll(loads, NonEmpty(sequences[1..]));
            Behind(before, LoadAll(loads, NonEmpty(sequences)))
            == if sequences[0] == [] then Behind(before, rest)
               else if loads(sequences[0]) == None then Decoded(before, true)
               else Behind(before + [loads(sequences[0]).value], rest)
  {
    var first, tail := sequences[0], NonEmpty(sequences[1..]);
    if first == [] {
      assert [] + tail == tail;
    } else {
      LoadFirst(loads, first, tail, before);
    }
  }

  lemma LoadFirst<T>(loads: Bytes -> Option<T>, first: Bytes, tail: seq<Bytes>, before: seq<T>)
    ensures Behind(before, LoadAll(loads, [first] + tail))
         == if loads(first) == None then Decoded(before, true)
            else Behind(before + [loads(first).value], LoadAll(loads, tail))
  {
    assert ([first] + tail)[1..] == tail;
    if loads(first) == None {
      assert before + [] == before;
    } else {
      Associative(before, [loads(first).value], LoadAll(loads, tail).items);
    }
  }

  lemma {:induction false} NonEmptyConcat(a: seq<Bytes>, b: seq<Bytes>)
    ensures NonEmpty(a + b) == NonEmpty(a) + NonEmpty(b)
  {
    if a == [] {
      assert a + b == b;
    } else {
      assert (a + b)[1..] == a[1..] + b;
      NonEmptyConcat(a[1..], b);
    }
  }

  lemma {:induction false} LoadConcat<T>(loads: Bytes -> Option<T>, a: seq<Bytes>, b: seq<Bytes>)
    ensures var first := LoadAll(loads, a);
            LoadAll(loads, a + b) == if first.failed then first else Behind(first.items, LoadAll(loads, b))
  {
    if a == [] {
      assert a + b == b;
      var rest := LoadAll(loads, b);
      assert [] + rest.items == rest.items;
    } else {
      assert (a + b)[1..] == a[1..] + b && (a + b)[0] == a[0];
      LoadConcat(loads, a[1..], b);
      if loads(a[0]) != None {
        Associative([loads(a[0]).value], LoadAll(loads, a[1..]).items, LoadAll(loads, b).items);
      }
    }
  }

  /** The complete items can be decoded first, and the rest with what follows. */
  lemma ChunkNext<T>(loads: Bytes -> Option<T>, buffer: Bytes, rest: Bytes)
    ensures var first := Complete(loads, buffer);
            DecodeBytes(loads, buffer + rest)
            == if first.failed then first else Behind(first.items, DecodeBytes(loads, Incomplete(buffer) + rest))
  {
    if RS in buffer {
      var parts := Split(buffer, RS);
      var init, last := parts[..|parts| - 1], parts[|parts| - 1];
      LastPieceGoesOn(buffer, rest);
      NonEmptyConcat(init, Split(last + rest, RS));
      LoadConcat(loads, NonEmpty(init), NonEmpty(Split(last + rest, RS)));
    } else {
      BehindNothing(DecodeBytes(loads, buffer + rest));
    }
  }

  /** What follows a buffer goes on with its last piece. */
  lemma LastPieceGoesOn(buffer: Bytes, rest: Bytes)
    ensures var parts := Split(buffer, RS);
            Split(buffer + rest, RS) == parts[..|parts| - 1] + Split(parts[|parts| - 1] + rest, RS)
  {
    var parts := Split(buffer, RS);
    var last := parts[|parts| - 1];
    PiecesHaveNoSeparator(buffer, RS);
    SplitAppend(buffer, rest, RS);
    SplitAppend(last, rest, RS);
    SplitOfWhole(last, RS);
    assert [last][..0] == [];
  }

  lemma BehindNothing<T>(d: Decoded<T>)
    ensures Behind([], d) == d
  {
    assert [] + d.items == d.items;
  }

  lemma OnlyPart(part: Bytes)
    ensures RS !in part ==> Split(part, RS) == [part]
    ensures NonEmpty([part]) == if part == [] then [] else [part]
  {
    if RS !in part { SplitOfWhole(part, RS); }
    assert [part][1..] == [];
    assert NonEmpty([]) == [];
  }

  lemma ChunkBehind<T>(loads: Bytes -> Option<T>, buffer: Bytes, rest: Bytes, before: seq<T>)
    ensures var first := Behind(before, Complete(loads, buffer));
            Behind(before, DecodeBytes(loads, buffer + rest))
            == if first.failed then first else Behind(first.items, DecodeBytes(loads, Incomplete(buffer) + rest))
  {
    ChunkNext(loads, buffer, rest);
    var first, second := Complete(loads, buffer), DecodeBytes(loads, Incomplete(buffer) + rest);
    assert before + (first.items + second.items) == (before + first.items) + second.items;
  }

  // ---- encoding ----

  function EncodeOne<T>(dumps: T -> Bytes, item: T): Bytes {
    [RS] + dumps(item) + [LF]
  }

  function EncodeAll<T>(dumps: T -> Bytes, items: seq<T>): Bytes {
    if items == [] then [] else EncodeOne(dumps, items[0]) + EncodeAll(dumps, items[1..])
  }

  class Encoder<T(!new)> {
    const dumps: T -> Bytes
    var output: Bytes

    constructor (dumps: T -> Bytes)
      ensures this.dumps == dumps && output == []
    {
      this.dumps, output := dumps, [];
    }

    method EncodeItem(item: T)
      modifies this
      ensures output == old(output) + EncodeOne(dumps, item)
    {
      output := output + ([RS] + dumps(item) + [LF]);
    }

    method Encode(items: seq<T>)
      modifies this
      ensures output == old(output) + EncodeAll(dumps, items)
    {
      for i := 0 to |items|
        invariant output + EncodeAll(dumps, items[i..]) == old(output) + EncodeAll(dumps, items)
      {
        assert items[i..][1..] == items[i + 1..];
        Associative(output, EncodeOne(dumps, items[i]), EncodeAll(dumps, items[i + 1..]));
        EncodeItem(items[i]);
      }
    }
  }

  /** The texts of these items hold no separator, and with a newline behind them they load as the item. */
  predicate Codec<T(==)>(dumps: T -> Bytes, loads: Bytes -> Option<T>, items: seq<T>) {
    forall item | item in items :: RS !in dumps(item) && loads(dumps(item) + [LF]) == Some(item)
  }

  lemma {:induction false} SplitEncoded<T>(dumps: T -> Bytes, loads: Bytes -> Option<T>, items: seq<T>)
    requires Codec(dumps, loads, items)
    ensures LoadAll(loads, NonEmpty(Split(EncodeAll(dumps, items), RS))) == Decoded(items, false)
  {
    if items != [] {
      var text, rest := dumps(items[0]) + [LF], EncodeAll(dumps, items[1..]);
      assert items[0] in items && RS !in text;
      SplitEncoded(dumps, loads, items[1..]);
      FirstEncoded(text, rest, items[1..], dumps);
      LoadOneMore(loads, text, NonEmpty(Split(rest, RS)), items);
      Associative([RS], dumps(items[0]), [LF]);
      assert EncodeAll(dumps, items) == ([RS] + text) + rest;
    }
  }

  lemma LoadOneMore<T>(loads: Bytes -> Option<T>, text: Bytes, tail: seq<Bytes>, items: seq<T>)
    requires items != [] && loads(text) == Some(items[0]) && LoadAll(loads, tail) == Decoded(items[1..], false)
    ensures LoadAll(loads, [text] + tail) == Decoded(items, false)
  {
    assert ([text] + tail)[1..] == tail;
    assert [items[0]] + items[1..] == items;
  }

  lemma FirstEncoded<T>(text: Bytes, rest: Bytes, items: seq<T>, dumps: T -> Bytes)
    requires RS !in text && text != [] && rest == EncodeAll(dumps, items)
    ensures NonEmpty(Split([RS] + text + rest, RS)) == [text] + NonEmpty(Split(rest, RS))
  {
    SplitOfWhole(text, RS);
    assert [RS] + text + rest == [] + [RS] + (text + rest);
    SplitAtSeparator([], text + rest, RS);
    if rest == [] {
      assert text + rest == text;
      OnlyPart(text);
      assert Split<byte>([], RS) + [text] == [[]] + [text] && ([[]] + [text])[1..] == [text];
    } else {
      assert rest[0] == RS;
      assert text + rest == text + [RS] + rest[1..];
      SplitAtSeparator(text, rest[1..], RS);
      assert rest == [] + [RS] + rest[1..];
      SplitAtSeparator([], rest[1..], RS);
      var more := Split(rest[1..], RS);
      assert ([[]] + more)[1..] == more;
      assert ([text] + more)[1..] == more;
      assert ([[]] + ([text] + more))[1..] == [text] + more;
    }
  }

  /** Decoding what was encoded, cut into chunks in any way, gives the items back. */
  lemma RoundTrip<T>(dumps: T -> Bytes, loads: Bytes -> Option<T>, items: seq<T>, chunks: seq<Bytes>)
    requires Codec(dumps, loads, items) && Concat(chunks) == EncodeAll(dumps, items)
    ensures DecodeBytes(loads, Concat(chunks)) == Decoded(items, false)
  {
    SplitEncoded(dumps, loads, items);
  }

  /** The byte string cut into chunks of these lengths and a last one of what is left. */
  function Cut(input: Bytes, lengths: seq<nat>): seq<Bytes> {
    if lengths == [] then [input]
    else
      var n := if lengths[0] <= |input| then lengths[0] else |input|;
      [input[..n]] + Cut(input[n..], lengths[1..])
  }

  lemma {:induction false} CutJoins(input: Bytes, lengths: seq<nat>)
    ensures Concat(Cut(input, lengths)) == input
  {
    if lengths == [] {
      assert [input][1..] == [] && input + Concat([]) == input;
    } else {
      var n := if lengths[0] <= |input| then lengths[0] else |input|;
      CutJoins(input[n..], lengths[1..]);
      assert ([input[..n]] + Cut(input[n..], lengths[1..]))[1..] == Cut(input[n..], lengths[1..]);
      assert input[..n] + input[n..] == input;
    }
  }

  /** In whatever lengths the encoded items arrive, they decode to the items. */
  lemma AnyCutDecodes<T>(dumps: T -> Bytes, loads: Bytes -> Option<T>, items: seq<T>, lengths: seq<nat>)
    requires Codec(dumps, loads, items)
    ensures DecodeBytes(loads, Concat(Cut(EncodeAll(dumps, items), lengths))) == Decoded(items, false)
  {
    CutJoins(EncodeAll(dumps, items), lengths);
    RoundTrip(dumps, loads, items, Cut(EncodeAll(dumps, items), lengths));
  }
}
