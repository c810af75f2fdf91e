/**
 Exactly which payloads `Frame::decode` accepts for the `DataOpen` tag, and
 exactly which ones make it index out of range.
 */
module DataOpens {
  import opened Bytes
  import opened Frames

  /** The fields a payload is laid out from, as an independent reading of the format. */
  ghost predicate LaidOut(q: Bytes, s: Bytes, p: Bytes, c: Bytes, proof: Bytes, tail: Bytes) {
    && |s| <= U16_MAX && |p| <= U16_MAX && |c| <= U16_MAX && |proof| == 32
    && ValidUtf8(s) && ValidUtf8(p) && ValidUtf8(c)
    && q == Layout(s, p, c, proof, tail)
  }

  /** A payload cut at the offsets that its own length fields name. */
  lemma Reassemble(q: Bytes, i: nat, len: nat)
    requires LengthAt(q, i) == Ok(len) && i + 2 + len <= |q|
    ensures q[i..] == U16LE(len) + q[i + 2..i + 2 + len] + q[i + 2 + len..]
  {
    LengthBytes(q[i], q[i + 1]);
    assert q[i..i + 2] == U16LE(len);
    assert q[i..] == q[i..i + 2] + q[i + 2..i + 2 + len] + q[i + 2 + len..];
  }

  lemma DecodedHasFields(q: Bytes)
    requires DecodeDataOpen(q).Ok?
    ensures
      var f := DecodeDataOpen(q).value;
      f.DataOpen? && FieldsAt(q, f.service, f.provider, f.consumer, f.proof)
  {
  }

  lemma FieldIsThere(q: Bytes, i: nat, s: Bytes)
    requires LengthAt(q, i) == Ok(|s|) && Slice(q, i + 2, i + 2 + |s|) == Ok(s)
    ensures |s| <= U16_MAX && i + 2 + |s| <= |q| && q[i..] == U16LE(|s|) + s + q[i + 2 + |s|..]
  {
    Reassemble(q, i, |s|);
  }

  lemma Chain(q: Bytes, s: Bytes, p: Bytes, c: Bytes, proof: Bytes, tail: Bytes, r0: Bytes, r1: Bytes, r2: Bytes)
    requires |s| <= U16_MAX && |p| <= U16_MAX && |c| <= U16_MAX
    requires q == U16LE(|s|) + s + r0 && r0 == U16LE(|p|) + p + r1 && r1 == U16LE(|c|) + c + r2 && r2 == proof + tail
    ensures q == Layout(s, p, c, proof, tail)
  {
  }

  /** The suffixes of `q` behind each of its fields. */
  lemma FieldSuffixes(q: Bytes, s: Bytes, p: Bytes, c: Bytes, proof: Bytes, tail: Bytes)
    returns (r0: Bytes, r1: Bytes, r2: Bytes)
    requires FieldsAt(q, s, p, c, proof) && tail == q[6 + |s| + |p| + |c| + 32..]
    ensures |s| <= U16_MAX && |p| <= U16_MAX && |c| <= U16_MAX && |proof| == 32
    ensures q == U16LE(|s|) + s + r0 && r0 == U16LE(|p|) + p + r1 && r1 == U16LE(|c|) + c + r2 && r2 == proof + tail
  {
    var i := 2 + |s|;
    var k := i + 2 + |p|;
    var e := k + 2 + |c|;
    FieldIsThere(q, 0, s);
    FieldIsThere(q, i, p);
    FieldIsThere(q, k, c);
    LastIsThere(q, e, proof);
    assert q == q[0..];
    r0, r1, r2 := q[i..], q[k..], q[e..];
  }

  lemma FieldsAreLaidOut(q: Bytes, s: Bytes, p: Bytes, c: Bytes, proof: Bytes)
    requires FieldsAt(q, s, p, c, proof)
    ensures |s| <= U16_MAX && |p| <= U16_MAX && |c| <= U16_MAX && |proof| == 32
    ensures q == Layout(s, p, c, proof, q[6 + |s| + |p| + |c| + 32..])
  {
    var tail := q[6 + |s| + |p| + |c| + 32..];
    var r0, r1, r2 := FieldSuffixes(q, s, p, c, proof, tail);
    Chain(q, s, p, c, proof, tail, r0, r1, r2);
  }

  lemma LastIsThere(q: Bytes, e: nat, proof: Bytes)
    requires Slice(q, e, e + 32) == Ok(proof)
    ensures |proof| == 32 && e + 32 <= |q| && q[e..] == proof + q[e + 32..]
  {
  }

  lemma TextsAreLaidOut(q: Bytes, s: Text, p: Text, c: Text, proof: Bytes32)
    requires FieldsAt(q, s, p, c, proof)
    ensures
      var n := 6 + |s| + |p| + |c| + 32;
      n <= |q| && LaidOut(q, s, p, c, proof, q[n..])
  {
    FieldsAreLaidOut(q, s, p, c, proof);
  }

  /** `decode` succeeds exactly on laid-out payloads, whatever trails them. */
  lemma DecodesExactlyLayouts(q: Bytes)
    ensures DecodeDataOpen(q).Ok? <==> exists s, p, c, proof, tail :: LaidOut(q, s, p, c, proof, tail)
    ensures forall s, p, c, proof, tail ::
      LaidOut(q, s, p, c, proof, tail) ==> DecodeDataOpen(q) == Ok(DataOpen(s, p, c, proof))
  {
    if DecodeDataOpen(q).Ok? {
      var f := DecodeDataOpen(q).value;
      DecodedHasFields(q);
      TextsAreLaidOut(q, f.service, f.provider, f.consumer, f.proof);
    }
    forall s, p, c, proof, tail | LaidOut(q, s, p, c, proof, tail)
      ensures DecodeDataOpen(q) == Ok(DataOpen(s, p, c, proof))
    {
      DataOpenDecodes(s, p, c, proof, tail);
    }
  }

  /** Re-encoding a decoded frame gives back the payload up to its ignored tail. */
  lemma ReencodingIsAPrefix(q: Bytes)
    requires DecodeDataOpen(q).Ok?
    ensures
      var f := DecodeDataOpen(q).value;
      && f.DataOpen?
      && var again := EncodeDataOpen(f.service, f.provider, f.consumer, f.proof);
      && again.Ok?
      && again.value <= q
  {
    var f := DecodeDataOpen(q).value;
    DecodedHasFields(q);
    TextsAreLaidOut(q, f.service, f.provider, f.consumer, f.proof);
    LayoutStartsWithEncoding(f.service, f.provider, f.consumer, f.proof, q);
  }

  lemma LayoutStartsWithEncoding(s: Text, p: Text, c: Text, proof: Bytes32, q: Bytes)
    requires |s| <= U16_MAX && |p| <= U16_MAX && |c| <= U16_MAX
    requires exists tail :: q == Layout(s, p, c, proof, tail)
    ensures EncodeDataOpen(s, p, c, proof).Ok? && EncodeDataOpen(s, p, c, proof).value <= q
  {
    var tail :| q == Layout(s, p, c, proof, tail);
    DataOpenEncodes(s, p, c, proof);
    LayoutTail(s, p, c, proof, tail);
  }

  lemma LayoutTail(s: Bytes, p: Bytes, c: Bytes, proof: Bytes, tail: Bytes)
    requires |s| <= U16_MAX && |p| <= U16_MAX && |c| <= U16_MAX
    ensures Layout(s, p, c, proof, tail) == Layout(s, p, c, proof, []) + tail
  {
    var a, b, d := U16LE(|s|) + s, U16LE(|p|) + p, U16LE(|c|) + c;
    PushTail(a, b, d, proof, tail);
  }

  lemma PushTail(a: Bytes, b: Bytes, c: Bytes, d: Bytes, tail: Bytes)
    ensures a + (b + (c + (d + tail))) == a + (b + (c + (d + []))) + tail
  {
  }

  /** The provider length named by a payload long enough to hold its service field. */
  function ProviderEnd(q: Bytes): nat
    requires |q| >= 2 && |q| >= 38 + FromU16LE(q[0], q[1])
  {
    var n := FromU16LE(q[0], q[1]);
    4 + n + FromU16LE(q[2 + n], q[3 + n])
  }

  /**
   The payloads that run `decode` off the end of its slice: the up-front length
   check counts an empty provider and an empty consumer, so a provider length
   larger than the 34 bytes it leaves over is followed blindly.
   */
  predicate Overruns(q: Bytes) {
    && |q| >= 2
    && var n := FromU16LE(q[0], q[1]);
    && |q| >= 38 + n
    && ValidUtf8(q[2..2 + n])
    && (|q| < ProviderEnd(q) || (|q| < ProviderEnd(q) + 2 && ValidUtf8(q[4 + n..ProviderEnd(q)])))
  }

  /** The first two fields decide whether `decode` leaves its slice. */
  lemma OverrunsExactly(q: Bytes)
    ensures DecodeDataOpen(q).Panic? <==> Overruns(q)
  {
    if |q| >= 2 {
      var n := FromU16LE(q[0], q[1]);
      if |q| >= 38 + n && ValidUtf8(q[2..2 + n]) {
        assert LengthAt(q, 2 + n) == Ok(ProviderEnd(q) - 4 - n);
      }
    }
  }

  /** Every index `decode` uses is in range exactly when the payload does not overrun. */
  lemma PanicsExactlyOnOverrun(j: Json, tag: byte, q: Bytes)
    ensures Decode(j, tag, q).Panic? <==> tag == DATA_OPEN && Overruns(q)
  {
    OverrunsExactly(q);
  }

  /** A frame that fits every limit of `read_from` and still overruns: 38 bytes naming a 65535-byte provider. */
  lemma OverrunReachableFromTheWire(j: Json, tail: Bytes)
    ensures
      var q: Bytes := [0, 0, 255, 255] + seq(34, i => 0);
      && |q| <= MAX_FRAME_PAYLOAD
      && ReadFrame(j, [DATA_OPEN] + U16LE(|q|) + q + tail).out == Panic
  {
    var q: Bytes := [0, 0, 255, 255] + seq(34, i => 0);
    var s := [DATA_OPEN] + U16LE(|q|) + q + tail;
    FromU16LEIsArithmetic(0, 0);
    FromU16LEIsArithmetic(255, 255);
    LengthReadsBack(|q|);
    assert s[3..3 + |q|] == q;
    assert Overruns(q);
  }
}
