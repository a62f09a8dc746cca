// The SessionID serialisers: an 88-byte session identifier as raw bytes and as a JSON string.
module SessionIDs {
  import opened Wrappers
  import opened ByteSlices

  /** The identifier is 64 random bytes in padded base64url: (64 + 2) / 3 * 4 characters. */
  const SessionIDSizeBytes: nat := 512 / 8
  const SessionIDLength: nat := (SessionIDSizeBytes + 2) / 3 * 4

  /** `SessionID`, a Go `[SessionIDLength]byte`. */
  type SessionID = t: Bytes | |t| == SessionIDLength witness Zeros(SessionIDLength)

  /** The JSON string delimiter `"`. */
  const Quote: byte := 0x22

  /** `nilID`, the zero identifier. */
  const NilID: SessionID := Zeros(SessionIDLength)

  const NotEnoughData: string := "tokens.SessionID.Unmarshal: not enough data"
  const InvalidJSON: string := "invalid JSON passed tok tokens.SessionID.UnmarshalJSON"

  /** Equal: array equality, byte for byte. */
  function Equal(s: SessionID, s2: SessionID): (r: bool)
    ensures r <==> forall i :: 0 <= i < SessionIDLength ==> s[i] == s2[i]
  {
    s == s2
  }

  /** Size: every identifier has the same size, 88. */
  function Size(s: SessionID): (r: int)
    ensures r == SessionIDLength == 88
  {
    |s|
  }

  /** Marshal: the identifier's own bytes; its error is always nil. */
  function Marshal(s: SessionID): (r: Bytes)
    ensures |r| == Size(s)
    ensures forall i :: 0 <= i < |r| ==> r[i] == s[i]
  {
    s[..]
  }

  /** MarshalTo: copies as much of the identifier as fits into the front of
      `data` and returns the count; its error is always nil. */
  method MarshalTo(s: SessionID, data: array<byte>) returns (n: int)
    modifies data
    ensures n == Min(data.Length, SessionIDLength)
    ensures data[..n] == s[..n]
    ensures data[n..] == old(data[n..])
  {
    n := Copy(data, 0, s);
    assert forall j :: 0 <= j < n ==> data[..n][j] == s[..n][j];
    assert forall j :: n <= j < data.Length ==> data[j] == old(data[j]);
  }

  /** The receiver and the error after `Unmarshal(data)`. The copy happens
      before the length test, so a short input still overwrites the front. */
  function Unmarshalled(s: SessionID, data: Bytes): (r: (SessionID, Outcome))
    ensures r.1.Pass? <==> |data| >= SessionIDLength
    ensures r.1.Pass? ==> r.0 == data[..SessionIDLength]
    ensures r.1.Fail? ==> r.0 == data + s[|data|..] && r.1.message == NotEnoughData
  {
    var t := Copied(s, 0, data);
    if CopyCount(|s|, 0, data) != |s| then (t, Fail(NotEnoughData)) else (t, Pass)
  }

  /** Unmarshal on the pointer receiver `*s`. */
  method Unmarshal(s: array<byte>, data: Bytes) returns (err: Outcome)
    requires s.Length == SessionIDLength
    modifies s
    ensures (s[..], err) == Unmarshalled(old(s[..]), data)
  {
    var n := Copy(s, 0, data);
    if n != s.Length {
      return Fail(NotEnoughData);
    }
    return Pass;
  }

  /** `unmarshal(string)`: the same copy and length test, reading a Go string's bytes. */
  method UnmarshalString(s: array<byte>, data: Bytes) returns (err: Outcome)
    requires s.Length == SessionIDLength
    modifies s
    ensures (s[..], err) == Unmarshalled(old(s[..]), data)
  {
    var n := Copy(s, 0, data);
    if n != s.Length {
      return Fail(NotEnoughData);
    }
    return Pass;
  }

  /** Unmarshalling what Marshal gave restores the identifier, whatever the receiver held. */
  lemma UnmarshalMarshal(s0: SessionID, s: SessionID)
    ensures Unmarshalled(s0, Marshal(s)) == (s, Pass)
  {
    assert Marshal(s)[..SessionIDLength] == s;
  }

  /** What MarshalJSON returns: nil for the zero identifier, else the identifier between quotes. */
  function MarshalledJSON(s: SessionID): (r: Bytes)
    ensures s == NilID ==> r == []
    ensures s != NilID ==> |r| == SessionIDLength + 2 && r[0] == Quote && r[|r| - 1] == Quote
    ensures s != NilID ==> r[1..|r| - 1] == s
  {
    if Equal(s, NilID) then [] else [Quote] + s + [Quote]
  }

  /** MarshalJSON: fills a 90-byte buffer with the quotes and the identifier. */
  method MarshalJSON(s: SessionID) returns (r: Bytes)
    ensures r == MarshalledJSON(s)
  {
    if Equal(s, NilID) {
      return [];
    }
    var buf := new byte[SessionIDLength + 2](_ => 0);
    buf[0] := Quote;
    var _ := Copy(buf, 1, s);
    buf[buf.Length - 1] := Quote;
    ghost var want := [Quote] + s + [Quote];
    assert forall j :: 0 <= j < buf.Length ==> buf[..][j] == want[j];
    r := buf[..];
  }

  /** The inputs UnmarshalJSON does not panic on: a lone `"` makes it slice `data[1:0]`. */
  predicate JSONSliceable(data: Bytes) {
    !(|data| == 1 && data[0] == Quote)
  }

  /** The receiver and the error after `UnmarshalJSON(data)`: empty input is
      a no-op, unquoted input an error, and quoted input unmarshals its inside. */
  function UnmarshalledJSON(s: SessionID, data: Bytes): (r: (SessionID, Outcome))
    requires JSONSliceable(data)
    ensures |data| == 0 ==> r == (s, Pass)
    ensures r.1.Fail? <==> |data| > 0 && (data[0] != Quote || data[|data| - 1] != Quote || |data| < SessionIDLength + 2)
    ensures r.1.Pass? && |data| > 0 ==> r.0 == data[1..SessionIDLength + 1]
    ensures |data| > 0 && (data[0] != Quote || data[|data| - 1] != Quote) ==> r == (s, Fail(InvalidJSON))
    ensures |data| > 0 && data[0] == Quote && data[|data| - 1] == Quote && |data| < SessionIDLength + 2 ==>
      r.0 == data[1..|data| - 1] + s[|data| - 2..] && r.1 == Fail(NotEnoughData)
  {
    if |data| == 0 then (s, Pass)
    else if data[0] != Quote || data[|data| - 1] != Quote then (s, Fail(InvalidJSON))
    else Unmarshalled(s, data[1..|data| - 1])
  }

  /** UnmarshalJSON on the pointer receiver `*s`. */
  method UnmarshalJSON(s: array<byte>, data: Bytes) returns (err: Outcome)
    requires s.Length == SessionIDLength
    requires JSONSliceable(data)
    modifies s
    ensures (s[..], err) == UnmarshalledJSON(old(s[..]), data)
  {
    if |data| == 0 {
      return Pass;
    }
    if data[0] != Quote || data[|data| - 1] != Quote {
      return Fail(InvalidJSON);
    }
    err := Unmarshal(s, data[1..|data| - 1]);
  }

  /** JSON round trip: a non-zero identifier survives MarshalJSON then UnmarshalJSON. */
  lemma {:induction false} JSONRoundTrip(s0: SessionID, s: SessionID)
    requires s != NilID
    ensures JSONSliceable(MarshalledJSON(s))
    ensures UnmarshalledJSON(s0, MarshalledJSON(s)) == (s, Pass)
  {
    var j := MarshalledJSON(s);
    assert j[1..|j| - 1] == s;
  }

  /** The zero identifier marshals to nil, and nil unmarshals as a no-op, so the
      receiver keeps whatever it held: the zero identifier round-trips only onto a zero receiver. */
  lemma NilJSONKeepsReceiver(s0: SessionID)
    ensures UnmarshalledJSON(s0, MarshalledJSON(NilID)) == (s0, Pass)
  {
  }
}
