// The AuthToken serialisers: an 88-byte token as raw bytes and as a JSON string.
module AuthTokens {
  import opened Wrappers
  import opened ByteSlices

  /** The token is 64 random bytes in padded base64url: (64 + 2) / 3 * 4 characters. */
  const AuthSizeBytes: nat := 512 / 8
  const AuthTokenLength: nat := (AuthSizeBytes + 2) / 3 * 4

  /** `AuthToken`, a Go `[AuthTokenLength]byte`. */
  type AuthToken = t: Bytes | |t| == AuthTokenLength witness Zeros(AuthTokenLength)

  /** The JSON string delimiter `"`. */
  const Quote: byte := 0x22

  /** `nilToken`, the zero token. */
  const NilToken: AuthToken := Zeros(AuthTokenLength)

  const NotEnoughData: string := "tokens.AuthToken.Unmarshal: not enough data"
  const InvalidJSON: string := "invalid JSON passed tok tokens.AuthToken.UnmarshalJSON"

  /** Equal: array equality, byte for byte. */
  function Equal(a: AuthToken, a2: AuthToken): (r: bool)
    ensures r <==> forall i :: 0 <= i < AuthTokenLength ==> a[i] == a2[i]
  {
    a == a2
  }

  /** Size: every token has the same size, 88. */
  function Size(a: AuthToken): (r: int)
    ensures r == AuthTokenLength == 88
  {
    |a|
  }

  /** Marshal: the token's own bytes; its error is always nil. */
  function Marshal(a: AuthToken): (r: Bytes)
    ensures |r| == Size(a)
    ensures forall i :: 0 <= i < |r| ==> r[i] == a[i]
  {
    a[..]
  }

  /** MarshalTo: copies as much of the token as fits into the front of
      `data` and returns the count; its error is always nil. */
  method MarshalTo(a: AuthToken, data: array<byte>) returns (n: int)
    modifies data
    ensures n == Min(data.Length, AuthTokenLength)
    ensures data[..n] == a[..n]
    ensures data[n..] == old(data[n..])
  {
    n := Copy(data, 0, a);
    assert forall j :: 0 <= j < n ==> data[..n][j] == a[..n][j];
    assert forall j :: n <= j < data.Length ==> data[j] == old(data[j]);
  }

  /** The receiver and the error after `Unmarshal(data)`. The copy happens
      before the length test, so a short input still overwrites the front. */
  function Unmarshalled(a: AuthToken, data: Bytes): (r: (AuthToken, Outcome))
    ensures r.1.Pass? <==> |data| >= AuthTokenLength
    ensures r.1.Pass? ==> r.0 == data[..AuthTokenLength]
    ensures r.1.Fail? ==> r.0 == data + a[|data|..] && r.1.message == NotEnoughData
  {
    var t := Copied(a, 0, data);
    if CopyCount(|a|, 0, data) != |a| then (t, Fail(NotEnoughData)) else (t, Pass)
  }

  /** Unmarshal on the pointer receiver `*a`. */
  method Unmarshal(a: array<byte>, data: Bytes) returns (err: Outcome)
    requires a.Length == AuthTokenLength
    modifies a
    ensures (a[..], err) == Unmarshalled(old(a[..]), data)
  {
    var n := Copy(a, 0, data);
    if n != a.Length {
      return Fail(NotEnoughData);
    }
    return Pass;
  }

  /** Unmarshalling what Marshal gave restores the token, whatever the receiver held. */
  lemma UnmarshalMarshal(a0: AuthToken, a: AuthToken)
    ensures Unmarshalled(a0, Marshal(a)) == (a, Pass)
  {
    assert Marshal(a)[..AuthTokenLength] == a;
  }

  /** What MarshalJSON returns: nil for the zero token, else the token between quotes. */
  function MarshalledJSON(a: AuthToken): (r: Bytes)
    ensures a == NilToken ==> r == []
    ensures a != NilToken ==> |r| == AuthTokenLength + 2 && r[0] == Quote && r[|r| - 1] == Quote
    ensures a != NilToken ==> r[1..|r| - 1] == a
  {
    if Equal(a, NilToken) then [] else [Quote] + a + [Quote]
  }

  /** MarshalJSON: fills a 90-byte buffer with the quotes and the token. */
  method MarshalJSON(a: AuthToken) returns (r: Bytes)
    ensures r == MarshalledJSON(a)
  {
    if Equal(a, NilToken) {
      return [];
    }
    var buf := new byte[AuthTokenLength + 2](_ => 0);
    buf[0] := Quote;
    var _ := Copy(buf, 1, a);
    buf[buf.Length - 1] := Quote;
    ghost var want := [Quote] + a + [Quote];
    assert forall j :: 0 <= j < buf.Length ==> buf[..][j] == want[j];
    r := buf[..];
  }

  /** The inputs UnmarshalJSON does not panic on: a lone `"` makes it slice `data[1:0]`. */
  predicate JSONSliceable(data: Bytes) {
    !(|data| == 1 && data[0] == Quote)
  }

  /** The receiver and the error after `UnmarshalJSON(data)`: empty input is
      a no-op, unquoted input an error, and quoted input unmarshals its inside. */
  function UnmarshalledJSON(a: AuthToken, data: Bytes): (r: (AuthToken, Outcome))
    requires JSONSliceable(data)
    ensures |data| == 0 ==> r == (a, Pass)
    ensures r.1.Fail? <==> |data| > 0 && (data[0] != Quote || data[|data| - 1] != Quote || |data| < AuthTokenLength + 2)
    ensures r.1.Pass? && |data| > 0 ==> r.0 == data[1..AuthTokenLength + 1]
    ensures |data| > 0 && (data[0] != Quote || data[|data| - 1] != Quote) ==> r == (a, Fail(InvalidJSON))
    ensures |data| > 0 && data[0] == Quote && data[|data| - 1] == Quote && |data| < AuthTokenLength + 2 ==>
      r.0 == data[1..|data| - 1] + a[|data| - 2..] && r.1 == Fail(NotEnoughData)
  {
    if |data| == 0 then (a, Pass)
    else if data[0] != Quote || data[|data| - 1] != Quote then (a, Fail(InvalidJSON))
    else Unmarshalled(a, data[1..|data| - 1])
  }

  /** UnmarshalJSON on the pointer receiver `*a`. */
  method UnmarshalJSON(a: array<byte>, data: Bytes) returns (err: Outcome)
    requires a.Length == AuthTokenLength
    requires JSONSliceable(data)
    modifies a
    ensures (a[..], err) == UnmarshalledJSON(old(a[..]), data)
  {
    if |data| == 0 {
      return Pass;
    }
    if data[0] != Quote || data[|data| - 1] != Quote {
      return Fail(InvalidJSON);
    }
    err := Unmarshal(a, data[1..|data| - 1]);
  }

  /** JSON round trip: a non-zero token survives MarshalJSON then UnmarshalJSON. */
  lemma {:induction false} JSONRoundTrip(a0: AuthToken, a: AuthToken)
    requires a != NilToken
    ensures JSONSliceable(MarshalledJSON(a))
    ensures UnmarshalledJSON(a0, MarshalledJSON(a)) == (a, Pass)
  {
    var j := MarshalledJSON(a);
    assert j[1..|j| - 1] == a;
  }

  /** The zero token marshals to nil, and nil unmarshals as a no-op, so the
      receiver keeps whatever it held: the zero token round-trips only onto a zero receiver. */
  lemma NilJSONKeepsReceiver(a0: AuthToken)
    ensures UnmarshalledJSON(a0, MarshalledJSON(NilToken)) == (a0, Pass)
  {
  }
}
