/** Interleaved signed 16-bit little-endian PCM: `toLittleEndianPcm` in
    desktop/src/DesktopNetworkHost.cpp and `decodePcm` in core/src/JitterBuffer.cpp. */
module Pcm {
  import opened Numbers

  /** The sample whose two's-complement bits are `low | high << 8`. */
  function SampleOf(low: u8, high: u8): (s: i16)
    ensures s % 0x1_0000 == low + 0x100 * high
  {
    var bits := low + 0x100 * high;
    if bits < 0x8000 then bits else bits - 0x1_0000
  }

  function Decoded(payload: seq<u8>): (samples: seq<i16>)
    ensures |samples| == |payload| / 2
  {
    seq(|payload| / 2, k requires 0 <= k < |payload| / 2 => SampleOf(payload[2 * k], payload[2 * k + 1]))
  }

  method DecodePcm(payload: seq<u8>) returns (samples: seq<i16>)
    ensures samples == Decoded(payload)
  {
    samples := [];
    for k := 0 to |payload| / 2
      invariant |samples| == k
      invariant forall j :: 0 <= j < k ==> samples[j] == SampleOf(payload[2 * j], payload[2 * j + 1])
    {
      samples := samples + [SampleOf(payload[2 * k], payload[2 * k + 1])];
    }
  }

  function Encoded(samples: seq<i16>): (payload: seq<u8>)
    ensures |payload| == 2 * |samples|
  {
    if samples == [] then []
    else
      var bits := samples[|samples| - 1] as int % 0x1_0000;
      Encoded(samples[..|samples| - 1]) + [bits % 0x100, bits / 0x100]
  }

  method ToLittleEndianPcm(samples: seq<i16>) returns (payload: seq<u8>)
    ensures payload == Encoded(samples)
    ensures Decoded(payload) == samples
  {
    payload := [];
    for k := 0 to |samples|
      invariant payload == Encoded(samples[..k])
    {
      var bits := samples[k] as int % 0x1_0000;
      payload := payload + [bits % 0x100];
      payload := payload + [bits / 0x100];
      assert samples[..k + 1][..k] == samples[..k];
    }
    assert samples[..|samples|] == samples;
    DecodedEncoded(samples);
  }

  /** What the host packs is what the client unpacks. */
  lemma {:induction false} DecodedEncoded(samples: seq<i16>)
    ensures Decoded(Encoded(samples)) == samples
  {
    if samples != [] {
      var n := |samples| - 1;
      var e := Encoded(samples[..n]);
      DecodedEncoded(samples[..n]);
      forall k | 0 <= k < |samples|
        ensures Decoded(Encoded(samples))[k] == samples[k]
      {
        if k < n {
          assert Decoded(e)[k] == samples[..n][k];
        }
      }
    }
  }
}
