/** The loudness reduction of `MagneticMesh::update`: the mean of the lower
    and of the upper half of a 512-band spectrum, or a fixed default in a build
    without audio. */
module Spectrum {

  const FFT_BANDS: nat := 512
  /** The split point between the bass and the treble band. */
  const HALF_BANDS: nat := FFT_BANDS / 2
  const DEFAULT_LOUDNESS: real := 5.0

  /** What the audio side offers on one tick. */
  datatype AudioFrame =
    | NoAudio              // a build without audio support (no `__APPLE__`)
    | NoPcmBuffer          // the track has no PCM buffer yet
    | NoFft                // the transform returned nothing
    | Fft(bands: seq<real>)

  predicate WellFormed(audio: AudioFrame) {
    audio.Fft? ==> |audio.bands| == FFT_BANDS
  }

  function Sum(s: seq<real>): real {
    if s == [] then 0.0 else Sum(s[..|s| - 1]) + s[|s| - 1]
  }

  lemma {:induction false} SumAppend(a: seq<real>, b: seq<real>)
    ensures Sum(a + b) == Sum(a) + Sum(b)
  {
    if b == [] {
      assert a + b == a;
    } else {
      assert (a + b)[..|a + b| - 1] == a + b[..|b| - 1];
      SumAppend(a, b[..|b| - 1]);
    }
  }

  lemma {:induction false} SumNonNegative(s: seq<real>)
    requires forall k :: 0 <= k < |s| ==> s[k] >= 0.0
    ensures Sum(s) >= 0.0
  {
    if s != [] {
      SumNonNegative(s[..|s| - 1]);
    }
  }

  /** `(bass, treble)` is the pair `update` derives from `audio`. */
  ghost predicate Reduced(audio: AudioFrame, bass: real, treble: real)
    requires WellFormed(audio)
  {
    match audio
    case NoAudio => bass == DEFAULT_LOUDNESS && treble == DEFAULT_LOUDNESS
    case NoPcmBuffer => bass == 0.0 && treble == 0.0
    case NoFft => bass == 0.0 && treble == 0.0
    case Fft(bands) =>
      bass == Sum(bands[..HALF_BANDS]) / HALF_BANDS as real &&
      treble == Sum(bands[HALF_BANDS..]) / HALF_BANDS as real
  }

  /** The loudness part of `update`. */
  method Loudness(audio: AudioFrame) returns (bass: real, treble: real)
    requires WellFormed(audio)
    ensures Reduced(audio, bass, treble)
  {
    if audio.NoAudio? {
      // If there is no audio, still add a little colour.
      return DEFAULT_LOUDNESS, DEFAULT_LOUDNESS;
    }
    bass, treble := 0.0, 0.0;
    if audio.Fft? {
      bass := BandTotal(audio.bands, 0, HALF_BANDS);
      treble := BandTotal(audio.bands, HALF_BANDS, FFT_BANDS);
      assert audio.bands[0..HALF_BANDS] == audio.bands[..HALF_BANDS];
      assert audio.bands[HALF_BANDS..FFT_BANDS] == audio.bands[HALF_BANDS..];
    }
    bass := bass / HALF_BANDS as real;
    treble := treble / HALF_BANDS as real;
  }

  /** One of the two summing loops of `update`: bands `lo` to `hi - 1`. */
  method BandTotal(buffer: seq<real>, lo: nat, hi: nat) returns (total: real)
    requires lo <= hi <= |buffer|
    ensures total == Sum(buffer[lo..hi])
  {
    total := 0.0;
    var i := lo;
    while i < hi
      invariant lo <= i <= hi
      invariant total == Sum(buffer[lo..i])
    {
      assert buffer[lo..i + 1][..i - lo] == buffer[lo..i];
      total := total + buffer[i];
      i := i + 1;
    }
  }

  /** The two bands split the spectrum: together they are twice its mean. */
  lemma ReducedSplitsSpectrum(bands: seq<real>, bass: real, treble: real)
    requires |bands| == FFT_BANDS && Reduced(Fft(bands), bass, treble)
    ensures bass + treble == Sum(bands) / HALF_BANDS as real
  {
    assert bands == bands[..HALF_BANDS] + bands[HALF_BANDS..];
    SumAppend(bands[..HALF_BANDS], bands[HALF_BANDS..]);
  }

  /** A spectrum of magnitudes gives non-negative loudness, and so does every
      other case. */
  lemma ReducedNonNegative(audio: AudioFrame, bass: real, treble: real)
    requires WellFormed(audio) && Reduced(audio, bass, treble)
    requires audio.Fft? ==> forall k :: 0 <= k < |audio.bands| ==> audio.bands[k] >= 0.0
    ensures bass >= 0.0 && treble >= 0.0
  {
    if audio.Fft? {
      SumNonNegative(audio.bands[..HALF_BANDS]);
      SumNonNegative(audio.bands[HALF_BANDS..]);
    }
  }
}
