// Time-boxed envelopes: a length-prefixed expiry, a nonce and a NaCl secretbox
// (XSalsa20-Poly1305) sealed payload, opened only strictly before the expiry.
module Timebox {
  import opened Wrappers
  import opened ByteSlices

  const NonceSize: nat := 24
  const KeySize: nat := 32
  /** secretbox.Overhead: the length of the Poly1305 tag the box appends. */
  const Overhead: nat := 16

  type Nonce = n: Bytes | |n| == NonceSize witness Zeros(NonceSize)
  type Key = k: Bytes | |k| == KeySize witness Zeros(KeySize)

  /** A `time.Time` reduced to its position on the time line. */
  type Instant = int

  /** `a.Before(b)` on `time.Time`. */
  predicate Before(a: Instant, b: Instant) { a < b }

  /** `time.Time.MarshalBinary` and `UnmarshalBinary`, taken as given. */
  datatype TimeCodec = TimeCodec(marshal: Instant -> Result<Bytes>, unmarshal: Bytes -> Option<Instant>)
  {
    /** What the model relies on: an encoding fits in a length byte and decodes back. */
    ghost predicate Valid() {
      forall t :: marshal(t).Ok? ==>
        |marshal(t).value| <= 255 && unmarshal(marshal(t).value) == Some(t)
    }
  }

  /** `secretbox.Seal` and `secretbox.Open`, taken as given. */
  datatype SecretBox = SecretBox(seal: (Bytes, Nonce, Key) -> Bytes, open: (Bytes, Nonce, Key) -> Option<Bytes>)
  {
    /** What the model relies on: a box grows by the tag and opens with the
        nonce and key that sealed it, and whatever opens is the tag shorter. */
    ghost predicate Valid() {
      && (forall m, n, k :: |seal(m, n, k)| == |m| + Overhead && open(seal(m, n, k), n, k) == Some(m))
      && (forall c, n, k :: open(c, n, k).Some? ==> |open(c, n, k).value| + Overhead == |c|)
    }
  }

  /** The codec contract can be met, so lemmas that require it are not vacuous. */
  lemma TimeCodecSatisfiable()
    ensures exists c: TimeCodec :: c.Valid()
  {
    var c := TimeCodec(
      t => if 0 <= t < 256 then Ok(Zeros(t)) else Err("out of range"),
      s => Some(|s|));
    assert c.Valid();
  }

  /** The secretbox contract can be met, so lemmas that require it are not vacuous. */
  lemma SecretBoxSatisfiable()
    ensures exists b: SecretBox :: b.Valid()
  {
    var b := SecretBox(
      (m: Bytes, n: Nonce, k: Key) => m + Zeros(Overhead),
      (c: Bytes, n: Nonce, k: Key) => if |c| < Overhead then None else Some(c[..|c| - Overhead]));
    forall m: Bytes, n: Nonce, k: Key
      ensures |b.seal(m, n, k)| == |m| + Overhead && b.open(b.seal(m, n, k), n, k) == Some(m)
    {
      assert (m + Zeros(Overhead))[..|m|] == m;
    }
    assert forall c: Bytes, n: Nonce, k: Key ::
      b.open(c, n, k).Some? ==> |b.open(c, n, k).value| + Overhead == |c|;
    assert b.Valid();
  }

  /** `byte(n)`: Go's conversion keeps the low eight bits of the length. */
  function LengthByte(n: nat): byte { n % 256 }

  /** The length byte states the length exactly when the length fits in a byte. */
  lemma LengthByteExact(n: nat)
    ensures LengthByte(n) as int == n <==> n <= 255
  {
  }

  /** The sealed layout: `[byte(len(tb))] ++ tb ++ nonce ++ sealed`. */
  function Frame(stamp: Bytes, nonce: Nonce, sealed: Bytes): Bytes {
    [LengthByte(|stamp|)] + stamp + nonce + sealed
  }

  /** What SealWith returns: the marshalling error, or the framed box. */
  function Sealed(data: Bytes, expires: Instant, nonce: Nonce, key: Key, codec: TimeCodec, box: SecretBox): (r: Result<Bytes>)
    ensures r.Err? <==> codec.marshal(expires).Err?
    ensures r.Err? ==> r.message == codec.marshal(expires).message
    ensures r.Ok? ==> var tb := codec.marshal(expires).value;
      && |r.value| == 1 + |tb| + NonceSize + |box.seal(data, nonce, key)|
      && r.value[0] == LengthByte(|tb|)
      && r.value[1..1 + |tb|] == tb
      && r.value[1 + |tb|..1 + |tb| + NonceSize] == nonce
      && r.value[1 + |tb| + NonceSize..] == box.seal(data, nonce, key)
  {
    match codec.marshal(expires)
    case Err(msg) => Err(msg)
    case Ok(tb) => Ok(Frame(tb, nonce, box.seal(data, nonce, key)))
  }

  /** SealWith: fills a header buffer in place and appends the sealed payload to it. */
  method SealWith(data: Bytes, expires: Instant, nonce: Nonce, key: Key, codec: TimeCodec, box: SecretBox)
    returns (r: Result<Bytes>)
    ensures r == Sealed(data, expires, nonce, key, codec, box)
    ensures r.Err? <==> codec.marshal(expires).Err?
  {
    var m := codec.marshal(expires);
    if m.Err? {
      return Err(m.message);
    }
    var tb := m.value;
    var outlen := 1 + |tb| + |nonce|;
    var out := new byte[outlen](_ => 0);
    out[0] := LengthByte(|tb|);
    var _ := Copy(out, 1, tb);
    var _ := Copy(out, 1 + |tb|, nonce);
    ghost var header := [LengthByte(|tb|)] + tb + nonce;
    assert forall j :: 0 <= j < outlen ==> out[..][j] == header[j];
    assert out[..] == header;
    r := Ok(out[..] + box.seal(data, nonce, key));
  }

  /** Seal: SealWith under a nonce drawn from the random source; the draw is
      an input, and its failure is returned as the error. */
  method Seal(data: Bytes, expires: Instant, key: Key, draw: Result<Nonce>, codec: TimeCodec, box: SecretBox)
    returns (r: Result<Bytes>)
    ensures draw.Err? ==> r == Err(draw.message)
    ensures draw.Ok? ==> r == Sealed(data, expires, draw.value, key, codec, box)
  {
    if draw.Err? {
      return Err(draw.message);
    }
    r := SealWith(data, expires, draw.value, key, codec, box);
  }

  /** The output length is the header plus the payload plus the tag. */
  lemma SealedLength(data: Bytes, expires: Instant, nonce: Nonce, key: Key, codec: TimeCodec, box: SecretBox)
    requires box.Valid()
    requires codec.marshal(expires).Ok?
    ensures Sealed(data, expires, nonce, key, codec, box).Ok?
    ensures |Sealed(data, expires, nonce, key, codec, box).value|
         == 1 + |codec.marshal(expires).value| + NonceSize + |data| + Overhead
  {
  }

  /** The fields OpenAt reads out of a box. */
  datatype Envelope = Envelope(stamp: Bytes, nonce: Nonce, box: Bytes)

  /** The inputs OpenAt does not panic on: a length byte and that many bytes after it. */
  predicate Framed(data: Bytes) {
    |data| >= 1 && data[0] as int + 1 <= |data|
  }

  /** How OpenAt splits its input: the stamp `data[1:end]`, then up to 24
      nonce bytes copied into a zeroed array, then whatever is left. */
  function Parse(data: Bytes): (e: Envelope)
    requires Framed(data)
    ensures |e.stamp| == data[0] as int && e.stamp == data[1..data[0] as int + 1]
    ensures |data| >= data[0] as int + 1 + NonceSize ==>
      e.nonce == data[data[0] as int + 1..data[0] as int + 1 + NonceSize] && e.box == data[data[0] as int + 1 + NonceSize..]
  {
    var end := data[0] as int + 1;
    var rest := data[end..];
    Envelope(data[1..end], Copied(Zeros(NonceSize), 0, rest), rest[CopyCount(NonceSize, 0, rest)..])
  }

  /** Parsing inverts the framing whenever the stamp fits the length byte. */
  lemma {:induction false} ParseFrame(stamp: Bytes, nonce: Nonce, sealed: Bytes)
    requires |stamp| <= 255
    ensures Framed(Frame(stamp, nonce, sealed))
    ensures Parse(Frame(stamp, nonce, sealed)) == Envelope(stamp, nonce, sealed)
  {
    var data := Frame(stamp, nonce, sealed);
    assert data[0] == |stamp|;
    var end := |stamp| + 1;
    assert data[1..end] == stamp;
    var rest := data[end..];
    assert rest == nonce + sealed;
    assert CopyCount(NonceSize, 0, rest) == NonceSize;
    assert Copied(Zeros(NonceSize), 0, rest) == nonce;
    assert rest[NonceSize..] == sealed;
  }

  /** When fewer than 24 bytes follow the stamp, the nonce is zero-padded and the box is empty. */
  lemma ShortTail(data: Bytes)
    requires Framed(data)
    requires |data| - (data[0] as int + 1) < NonceSize
    ensures Parse(data).box == []
    ensures Parse(data).nonce == data[data[0] as int + 1..] + Zeros(NonceSize - (|data| - (data[0] as int + 1)))
  {
    var rest := data[data[0] as int + 1..];
    var padded := rest + Zeros(NonceSize - |rest|);
    assert forall j :: 0 <= j < NonceSize ==> Parse(data).nonce[j] == padded[j];
  }

  /** What OpenAt returns: `(nil, false)` on a bad stamp, at or after the
      expiry, or when the box does not open; otherwise the opened payload. */
  function OpenedAt(when: Instant, data: Bytes, key: Key, codec: TimeCodec, box: SecretBox): (r: (Bytes, bool))
    requires Framed(data)
    ensures !r.1 ==> r.0 == []
    ensures r.1 <==> (codec.unmarshal(Parse(data).stamp).Some?
                      && Before(when, codec.unmarshal(Parse(data).stamp).value)
                      && box.open(Parse(data).box, Parse(data).nonce, key).Some?)
    ensures r.1 ==> Some(r.0) == box.open(Parse(data).box, Parse(data).nonce, key)
  {
    var e := Parse(data);
    var t := codec.unmarshal(e.stamp);
    if t.None? || !Before(when, t.value) then ([], false)
    else match box.open(e.box, e.nonce, key)
      case Some(m) => (m, true)
      case None => ([], false)
  }

  /** With fewer than 24 bytes after the stamp the box handed to secretbox is
      empty, shorter than a tag, so the envelope never opens. */
  lemma TruncatedRejected(when: Instant, data: Bytes, key: Key, codec: TimeCodec, box: SecretBox)
    requires box.Valid()
    requires Framed(data)
    requires |data| - (data[0] as int + 1) < NonceSize
    ensures OpenedAt(when, data, key, codec, box) == ([], false)
  {
    ShortTail(data);
  }

  /** OpenAt: unmarshals the stamp, applies the expiry guard, copies the nonce
      into a local array and opens the rest. */
  method OpenAt(when: Instant, data: Bytes, key: Key, codec: TimeCodec, box: SecretBox)
    returns (out: Bytes, ok: bool)
    requires Framed(data)
    ensures (out, ok) == OpenedAt(when, data, key, codec, box)
  {
    var end := data[0] as int + 1;
    var t := codec.unmarshal(data[1..end]);
    if t.None? || !Before(when, t.value) {
      return [], false;
    }
    var rest := data[end..];
    var nonce := new byte[NonceSize](_ => 0);
    assert nonce[..] == Zeros(NonceSize);
    var n := Copy(nonce, 0, rest);
    assert nonce[..] == Parse(data).nonce && rest[n..] == Parse(data).box;
    var plain := box.open(rest[n..], nonce[..], key);
    if plain.Some? {
      out, ok := plain.value, true;
    } else {
      out, ok := [], false;
    }
  }

  /** Open: OpenAt at the clock's reading, which is an input here. */
  method Open(now: Instant, data: Bytes, key: Key, codec: TimeCodec, box: SecretBox)
    returns (out: Bytes, ok: bool)
    requires Framed(data)
    ensures (out, ok) == OpenedAt(now, data, key, codec, box)
  {
    out, ok := OpenAt(now, data, key, codec, box);
  }

  /** Round trip: a box opened strictly before its expiry gives back the payload, empty or not. */
  lemma {:induction false} OpenSealed(when: Instant, data: Bytes, expires: Instant, nonce: Nonce, key: Key,
                                      codec: TimeCodec, box: SecretBox)
    requires codec.Valid() && box.Valid()
    requires codec.marshal(expires).Ok?
    requires Before(when, expires)
    ensures Sealed(data, expires, nonce, key, codec, box).Ok?
    ensures Framed(Sealed(data, expires, nonce, key, codec, box).value)
    ensures OpenedAt(when, Sealed(data, expires, nonce, key, codec, box).value, key, codec, box) == (data, true)
  {
    var tb := codec.marshal(expires).value;
    ParseFrame(tb, nonce, box.seal(data, nonce, key));
  }

  /** At the expiry instant and afterwards, a box is rejected however it was sealed. */
  lemma {:induction false} ExpiredRejected(when: Instant, data: Bytes, expires: Instant, nonce: Nonce, key: Key,
                                           codec: TimeCodec, box: SecretBox)
    requires codec.Valid()
    requires codec.marshal(expires).Ok?
    requires !Before(when, expires)
    ensures Sealed(data, expires, nonce, key, codec, box).Ok?
    ensures Framed(Sealed(data, expires, nonce, key, codec, box).value)
    ensures OpenedAt(when, Sealed(data, expires, nonce, key, codec, box).value, key, codec, box) == ([], false)
  {
    var tb := codec.marshal(expires).value;
    ParseFrame(tb, nonce, box.seal(data, nonce, key));
  }

  /** The expiry is outside the box: the nonce and sealed suffix do not depend on it. */
  lemma ExpiryOutsideBox(data: Bytes, e1: Instant, e2: Instant, nonce: Nonce, key: Key, codec: TimeCodec, box: SecretBox)
    requires codec.marshal(e1).Ok? && codec.marshal(e2).Ok?
    ensures Sealed(data, e1, nonce, key, codec, box).value[1 + |codec.marshal(e1).value|..]
         == Sealed(data, e2, nonce, key, codec, box).value[1 + |codec.marshal(e2).value|..]
         == nonce + box.seal(data, nonce, key)
  {
    var s1 := Sealed(data, e1, nonce, key, codec, box).value;
    var s2 := Sealed(data, e2, nonce, key, codec, box).value;
    assert s1[1 + |codec.marshal(e1).value|..] == nonce + box.seal(data, nonce, key);
    assert s2[1 + |codec.marshal(e2).value|..] == nonce + box.seal(data, nonce, key);
  }

  /** Nothing authenticates the stamp: replacing the header of a box sealed
      until `e1` with the encoding of any other expiry `e2` gives a box that
      opens to the same payload at every instant before `e2`. */
  lemma {:induction false} ExpiryNotAuthenticated(when: Instant, data: Bytes, e1: Instant, e2: Instant, nonce: Nonce,
                                                  key: Key, codec: TimeCodec, box: SecretBox)
    requires codec.Valid() && box.Valid()
    requires codec.marshal(e1).Ok? && codec.marshal(e2).Ok?
    requires Before(when, e2)
    ensures Framed([LengthByte(|codec.marshal(e2).value|)] + codec.marshal(e2).value
                   + Sealed(data, e1, nonce, key, codec, box).value[1 + |codec.marshal(e1).value|..])
    ensures OpenedAt(when, [LengthByte(|codec.marshal(e2).value|)] + codec.marshal(e2).value
                           + Sealed(data, e1, nonce, key, codec, box).value[1 + |codec.marshal(e1).value|..],
                     key, codec, box) == (data, true)
  {
    var tb2 := codec.marshal(e2).value;
    var tail := Sealed(data, e1, nonce, key, codec, box).value[1 + |codec.marshal(e1).value|..];
    ExpiryOutsideBox(data, e1, e2, nonce, key, codec, box);
    assert [LengthByte(|tb2|)] + tb2 + tail == Sealed(data, e2, nonce, key, codec, box).value;
    OpenSealed(when, data, e2, nonce, key, codec, box);
  }

  /** The expiry guard is monotonic: a box that opens at some instant opened
      the same way at every earlier instant. */
  lemma OpenableEarlier(w1: Instant, w2: Instant, data: Bytes, key: Key, codec: TimeCodec, box: SecretBox)
    requires Framed(data)
    requires w1 <= w2
    requires OpenedAt(w2, data, key, codec, box).1
    ensures OpenedAt(w1, data, key, codec, box) == OpenedAt(w2, data, key, codec, box)
  {
  }

  /** Both directions together: a sealed box opens to its payload exactly
      when it is opened strictly before its expiry. */
  lemma SealedOpensIffBefore(when: Instant, data: Bytes, expires: Instant, nonce: Nonce, key: Key,
                             codec: TimeCodec, box: SecretBox)
    requires codec.Valid() && box.Valid()
    requires codec.marshal(expires).Ok?
    ensures Sealed(data, expires, nonce, key, codec, box).Ok?
    ensures Framed(Sealed(data, expires, nonce, key, codec, box).value)
    ensures OpenedAt(when, Sealed(data, expires, nonce, key, codec, box).value, key, codec, box)
         == if Before(when, expires) then (data, true) else ([], false)
  {
    if Before(when, expires) {
      OpenSealed(when, data, expires, nonce, key, codec, box);
    } else {
      ExpiredRejected(when, data, expires, nonce, key, codec, box);
    }
  }
}
