/** The microphone worklet: nearest-sample decimation carried across audio blocks, and
    fixed-size chunks of 16-bit samples. Positions are exact reals. */
module MicCapture {
  import opened Commons

  // Samples

  function Clamp(x: real): real {
    if x < -1.0 then -1.0 else if x > 1.0 then 1.0 else x
  }

  /** Conversion to an integer drops the fraction. */
  function Truncate(x: real): int {
    if x < 0.0 then -((-x).Floor) else x.Floor
  }

  /** One sample as a signed 16-bit integer: the stored value cannot wrap. */
  function ToPcm(x: real): (r: int)
    ensures -0x8000 <= r <= 0x7FFF
  {
    var s := Clamp(x);
    if s < 0.0 then Truncate(s * 32768.0) else Truncate(s * 32767.0)
  }

  /** What a sample should become: within one step of its scaled value, toward zero, and the
      ends of the range for what lies beyond them. */
  ghost predicate Quantised(x: real, r: int) {
    if x < -1.0 then r == -32768
    else if x < 0.0 then 32768.0 * x <= r as real < 32768.0 * x + 1.0 && r <= 0
    else if x <= 1.0 then 32767.0 * x - 1.0 < r as real <= 32767.0 * x && r >= 0
    else r == 32767
  }

  lemma ToPcmQuantises(x: real)
    ensures Quantised(x, ToPcm(x))
  {
  }

  function Pcm(xs: seq<real>): seq<int> {
    seq(|xs|, i requires 0 <= i < |xs| => ToPcm(xs[i]))
  }

  // Resampling

  /** Position k of the resampler, k * ratio, as the sum the code accumulates. */
  function At(k: nat, ratio: real): (r: real)
    requires ratio > 0.0
    ensures r >= 0.0
  {
    if k == 0 then 0.0 else At(k - 1, ratio) + ratio
  }

  /** The first `m` positions fall within `n` samples. */
  predicate Covers(n: nat, ratio: real, m: nat)
    requires ratio > 0.0
  {
    m == 0 || At(m - 1, ratio) < n as real
  }

  /** Exactly the first `m` positions do. */
  predicate Exactly(n: nat, ratio: real, m: nat)
    requires ratio > 0.0
  {
    Covers(n, ratio, m) && At(m, ratio) >= n as real
  }

  /** The stream at positions 0 .. m - 1, rounded down. */
  function Samples(stream: seq<real>, ratio: real, m: nat): (r: seq<real>)
    requires ratio > 0.0 && Covers(|stream|, ratio, m)
    ensures |r| == m
  {
    if m == 0 then [] else Samples(stream, ratio, m - 1) + [stream[At(m - 1, ratio).Floor]]
  }

  lemma {:induction false} AtIsProduct(k: nat, ratio: real)
    requires ratio > 0.0
    ensures At(k, ratio) == k as real * ratio
    decreases k
  {
    if k > 0 {
      AtIsProduct(k - 1, ratio);
      assert k as real * ratio == (k - 1) as real * ratio + ratio;
    }
  }

  lemma {:induction false} LaterIsLarger(a: nat, b: nat, ratio: real)
    requires a <= b && ratio > 0.0
    ensures At(a, ratio) <= At(b, ratio)
    decreases b - a
  {
    if a < b { LaterIsLarger(a, b - 1, ratio); }
  }

  /** Position k * ratio, rounded down. */
  function IndexAt(k: nat, ratio: real): int {
    (k as real * ratio).Floor
  }

  /** Sample k is the stream at index floor(k * ratio), which lies inside the stream. */
  lemma {:induction false} SampleIndex(stream: seq<real>, ratio: real, m: nat, k: nat)
    requires ratio > 0.0 && Covers(|stream|, ratio, m) && k < m
    ensures 0 <= IndexAt(k, ratio) < |stream| && Samples(stream, ratio, m)[k] == stream[IndexAt(k, ratio)]
    decreases m
  {
    AtIsProduct(k, ratio);
    if k < m - 1 { SampleIndex(stream, ratio, m - 1, k); }
  }

  lemma {:induction false} SamplesSettled(stream: seq<real>, more: seq<real>, ratio: real, m: nat)
    requires ratio > 0.0 && Covers(|stream|, ratio, m)
    ensures Covers(|stream + more|, ratio, m)
    ensures Samples(stream + more, ratio, m) == Samples(stream, ratio, m)
    decreases m
  {
    if m > 0 { SamplesSettled(stream, more, ratio, m - 1); }
  }

  lemma AppendRegroup(a: seq<real>, b: seq<real>, x: real)
    ensures a + b + [x] == a + (b + [x])
  {
  }

  lemma {:induction false} UnitRatio(k: nat)
    ensures At(k, 1.0) == k as real
    decreases k
  {
    if k > 0 { UnitRatio(k - 1); }
  }

  /** At ratio 1 the samples are the stream itself. */
  lemma {:induction false} UnitSamples(stream: seq<real>, m: nat)
    requires m <= |stream|
    ensures Covers(|stream|, 1.0, m) && Samples(stream, 1.0, m) == stream[..m]
    decreases m
  {
    if m > 0 {
      UnitRatio(m - 1);
      UnitSamples(stream, m - 1);
    }
  }

  /** How many samples a stream yields is determined by its length. */
  lemma ExactlyUnique(n: nat, ratio: real, a: nat, b: nat)
    requires ratio > 0.0 && Exactly(n, ratio, a) && Exactly(n, ratio, b)
    ensures a == b
  {
    if a < b { LaterIsLarger(a, b - 1, ratio); }
    if b < a { LaterIsLarger(b, a - 1, ratio); }
  }

  lemma Scaled(a: real, b: real, ratio: real)
    requires ratio > 0.0 && a <= b
    ensures a * ratio <= b * ratio
  {
  }

  lemma Divide(a: real, b: real) returns (q: real)
    requires b > 0.0
    ensures q * b == a
  {
    q := a / b;
  }

  lemma Multiple(distance: real, ratio: real) returns (steps: nat)
    requires ratio > 0.0
    ensures steps as real * ratio >= distance
  {
    var q := Divide(distance, ratio);
    steps := if q < 0.0 then 0 else q.Floor + 1;
    var x := steps as real;
    Scaled(q, x, ratio);
    assert x * ratio >= q * ratio;
  }

  /** Enough steps cover any distance. */
  lemma StepsFor(distance: real, ratio: real) returns (steps: nat)
    requires ratio > 0.0
    ensures At(steps, ratio) >= distance
  {
    steps := Multiple(distance, ratio);
    AtIsProduct(steps, ratio);
  }

  // Chunking

  function Chunks(xs: seq<real>, chunk: nat): seq<seq<int>>
    requires chunk > 0
    decreases |xs|
  {
    if |xs| < chunk then [] else [Pcm(xs[..chunk])] + Chunks(xs[chunk..], chunk)
  }

  function Rest(xs: seq<real>, chunk: nat): (r: seq<real>)
    requires chunk > 0
    ensures |r| < chunk
    decreases |xs|
  {
    if |xs| < chunk then xs else Rest(xs[chunk..], chunk)
  }

  function Flatten(cs: seq<seq<int>>): seq<int> {
    if cs == [] then [] else cs[0] + Flatten(cs[1..])
  }

  lemma {:induction false} ChunksAppend(xs: seq<real>, ys: seq<real>, chunk: nat)
    requires chunk > 0
    ensures Chunks(xs + ys, chunk) == Chunks(xs, chunk) + Chunks(Rest(xs, chunk) + ys, chunk)
    ensures Rest(xs + ys, chunk) == Rest(Rest(xs, chunk) + ys, chunk)
    decreases |xs|
  {
    if |xs| >= chunk {
      assert (xs + ys)[..chunk] == xs[..chunk] && (xs + ys)[chunk..] == xs[chunk..] + ys;
      ChunksAppend(xs[chunk..], ys, chunk);
    }
  }

  /** Chunks and leftover together are the whole sequence, in order, and every chunk is full. */
  lemma {:induction false} ChunksPartition(xs: seq<real>, chunk: nat)
    requires chunk > 0
    ensures Flatten(Chunks(xs, chunk)) + Pcm(Rest(xs, chunk)) == Pcm(xs)
    ensures forall c <- Chunks(xs, chunk) :: |c| == chunk && forall v <- c :: -0x8000 <= v <= 0x7FFF
    decreases |xs|
  {
    if |xs| >= chunk {
      var head, tail := xs[..chunk], xs[chunk..];
      ChunksPartition(tail, chunk);
      PcmAppend(head, tail);
      assert xs == head + tail;
    }
  }

  lemma PcmAppend(xs: seq<real>, ys: seq<real>)
    ensures Pcm(xs + ys) == Pcm(xs) + Pcm(ys)
  {
  }

  class MicCapture {
    const ratio: real
    const chunk: nat
    var buf: seq<real>
    var pos: real
    /** Everything heard, how many samples it yielded, and everything posted. */
    ghost var stream: seq<real>
    ghost var taken: nat
    ghost var posted: seq<seq<int>>

    /** `taken` counts the positions inside the stream, `pos` is how far past its end the
        next one lies, and posts and buffer are the chunks and leftover of the samples. */
    ghost predicate Valid()
      reads this
    {
      && ratio > 0.0 && chunk > 0
      && Exactly(|stream|, ratio, taken)
      && pos == At(taken, ratio) - |stream| as real
      && posted == Chunks(Samples(stream, ratio, taken), chunk)
      && buf == Rest(Samples(stream, ratio, taken), chunk)
    }

    constructor (ratio: real, chunk: nat)
      requires ratio > 0.0 && chunk > 0
      ensures Valid() && stream == [] && posted == [] && this.ratio == ratio && this.chunk == chunk
    {
      this.ratio, this.chunk := ratio, chunk;
      buf, pos := [], 0.0;
      stream, taken, posted := [], 0, [];
    }

    /** `process`: one audio block, possibly absent. */
    method Process(input: Option<seq<real>>) returns (messages: seq<seq<int>>)
      requires Valid()
      modifies this
      ensures Valid()
      ensures stream == old(stream) + (if input.Some? then input.value else [])
      ensures posted == old(posted) + messages
    {
      if input.None? {
        assert old(stream) + [] == old(stream);
        return [];
      }
      ghost var before := Samples(stream, ratio, taken);
      ghost var gathered := Gather(input.value);
      ChunksAppend(before, gathered, chunk);
      messages := Flush();
      posted := posted + messages;
    }

    /** The sampling half: append the block's samples to the buffer. */
    method Gather(input: seq<real>) returns (ghost gathered: seq<real>)
      requires Valid()
      modifies this`buf, this`pos, this`stream, this`taken
      ensures stream == old(stream) + input && Exactly(|stream|, ratio, taken)
      ensures pos == At(taken, ratio) - |stream| as real
      ensures Samples(stream, ratio, taken) == old(Samples(stream, ratio, taken)) + gathered
      ensures buf == old(buf) + gathered
    {
      ghost var m;
      SamplesSettled(stream, input, ratio, taken);
      if ratio == 1.0 {
        gathered, m := CopyAll(input);
      } else {
        gathered, m := Decimate(input);
        pos := pos - |input| as real;
      }
      stream, taken := stream + input, m;
    }

    /** The rates agree: every sample is kept, and the position stays where it is. */
    method CopyAll(input: seq<real>) returns (ghost gathered: seq<real>, ghost m: nat)
      requires ratio == 1.0 && Exactly(|stream|, ratio, taken) && Covers(|stream + input|, ratio, taken)
      requires pos == At(taken, ratio) - |stream| as real
      modifies this`buf
      ensures Exactly(|stream + input|, ratio, m) && pos == At(m, ratio) - |stream + input| as real
      ensures Samples(stream + input, ratio, m) == Samples(stream + input, ratio, taken) + gathered
      ensures buf == old(buf) + gathered
    {
      for i := 0 to |input|
        invariant buf == old(buf) + input[..i]
      {
        buf := buf + [input[i]];
      }
      assert input[..|input|] == input;
      UnitRatio(taken);
      UnitRatio(if taken == 0 then 0 else taken - 1);
      UnitRatio(|stream + input|);
      UnitSamples(stream + input, taken);
      UnitSamples(stream + input, |stream + input|);
      gathered, m := input, |stream + input|;
    }

    /** The rates differ: take the sample under the position and step by the ratio. */
    method Decimate(input: seq<real>) returns (ghost gathered: seq<real>, ghost m: nat)
      requires ratio > 0.0 && Covers(|stream + input|, ratio, taken)
      requires 0.0 <= pos == At(taken, ratio) - |stream| as real
      modifies this`buf, this`pos
      ensures Exactly(|stream + input|, ratio, m) && pos == At(m, ratio) - |stream| as real
      ensures Samples(stream + input, ratio, m) == Samples(stream + input, ratio, taken) + gathered
      ensures buf == old(buf) + gathered
    {
      ghost var whole := stream + input;
      ghost var base := Samples(whole, ratio, taken);
      gathered, m := [], taken;
      ghost var budget := StepsFor(|input| as real - pos, ratio);
      while pos < |input| as real
        invariant Covers(|whole|, ratio, m) && 0.0 <= pos == At(m, ratio) - |stream| as real
        invariant Samples(whole, ratio, m) == base + gathered
        invariant buf == old(buf) + gathered
        invariant At(budget, ratio) >= |input| as real - pos
        decreases budget
      {
        var sample := input[pos.Floor];
        AppendRegroup(old(buf), gathered, sample);
        AppendRegroup(base, gathered, sample);
        buf := buf + [sample];
        pos := pos + ratio;
        gathered, m, budget := gathered + [sample], m + 1, budget - 1;
      }
    }

    /** The posting half: cut full chunks off the front of the buffer. */
    method Flush() returns (messages: seq<seq<int>>)
      requires chunk > 0
      modifies this`buf
      ensures messages == Chunks(old(buf), chunk) && buf == Rest(old(buf), chunk)
    {
      messages := [];
      while |buf| >= chunk
        invariant messages + Chunks(buf, chunk) == Chunks(old(buf), chunk)
        invariant Rest(buf, chunk) == Rest(old(buf), chunk)
      {
        var message := Convert(buf[..chunk]);
        messages := messages + [message];
        buf := buf[chunk..];
      }
    }

    /** One chunk as a buffer of 16-bit integers. */
    method Convert(slice: seq<real>) returns (message: seq<int>)
      ensures message == Pcm(slice)
      ensures |message| == |slice| && forall j | 0 <= j < |slice| :: Quantised(slice[j], message[j])
    {
      var pcm := new int[|slice|];
      for j := 0 to |slice|
        invariant pcm[..j] == Pcm(slice[..j])
      {
        var s := if slice[j] < -1.0 then -1.0 else if slice[j] > 1.0 then 1.0 else slice[j];
        pcm[j] := if s < 0.0 then Truncate(s * 32768.0) else Truncate(s * 32767.0);
      }
      assert slice[..|slice|] == slice && pcm[..] == pcm[..|slice|];
      return pcm[..];
    }
  }

  /** How the stream is cut into blocks is immaterial: two captures that have heard the same
      samples have posted the same chunks and hold the same leftover and position. */
  lemma BlocksImmaterial(a: MicCapture, b: MicCapture)
    requires a.Valid() && b.Valid() && a.ratio == b.ratio && a.chunk == b.chunk && a.stream == b.stream
    ensures a.posted == b.posted && a.buf == b.buf && a.pos == b.pos
  {
    ExactlyUnique(|a.stream|, a.ratio, a.taken, b.taken);
  }

  lemma {:induction false} RestIsSuffix(xs: seq<real>, chunk: nat)
    requires chunk > 0
    ensures |Rest(xs, chunk)| <= |xs| && Rest(xs, chunk) == xs[|xs| - |Rest(xs, chunk)|..]
    decreases |xs|
  {
    if |xs| >= chunk { RestIsSuffix(xs[chunk..], chunk); }
  }

  lemma IndexIsAt(k: nat, ratio: real)
    requires ratio > 0.0
    ensures IndexAt(k, ratio) == At(k, ratio).Floor
  {
    AtIsProduct(k, ratio);
  }

  lemma PositionsInside(n: nat, ratio: real, m: nat, k: nat)
    requires ratio > 0.0 && Exactly(n, ratio, m)
    ensures k < m <==> IndexAt(k, ratio) < n
  {
    IndexIsAt(k, ratio);
    if k < m { LaterIsLarger(k, m - 1, ratio); } else { LaterIsLarger(m, k, ratio); }
  }

  /** Each of the samples is where it should be. */
  ghost predicate Located(stream: seq<real>, ratio: real, samples: seq<real>) {
    forall k: nat | k < |samples| :: 0 <= IndexAt(k, ratio) < |stream| && samples[k] == stream[IndexAt(k, ratio)]
  }

  lemma SamplesLocated(stream: seq<real>, ratio: real, m: nat)
    requires ratio > 0.0 && Covers(|stream|, ratio, m)
    ensures Located(stream, ratio, Samples(stream, ratio, m))
  {
    forall k: nat | k < m
      ensures 0 <= IndexAt(k, ratio) < |stream| && Samples(stream, ratio, m)[k] == stream[IndexAt(k, ratio)]
    {
      SampleIndex(stream, ratio, m, k);
    }
  }

  /** The samples sent are quantised, and those held back come after them. */
  ghost predicate Sent(samples: seq<real>, sent: seq<int>, held: seq<real>) {
    && |sent| + |held| == |samples| && held == samples[|sent|..]
    && forall k | 0 <= k < |sent| :: Quantised(samples[k], sent[k])
  }

  lemma ChunksSend(samples: seq<real>, chunk: nat)
    requires chunk > 0
    ensures Sent(samples, Flatten(Chunks(samples, chunk)), Rest(samples, chunk))
  {
    var sent, rest := Flatten(Chunks(samples, chunk)), Rest(samples, chunk);
    ChunksPartition(samples, chunk);
    RestIsSuffix(samples, chunk);
    assert |sent + Pcm(rest)| == |Pcm(samples)|;
    forall k | 0 <= k < |sent| ensures sent[k] == ToPcm(samples[k]) {
      assert (sent + Pcm(rest))[k] == Pcm(samples)[k];
    }
  }

  /** What has been posted, followed by what is held back, is the resampled stream: number k is the
      sample at position k * ratio, rounded down, and there is one for every position inside. */
  lemma NothingLost(c: MicCapture)
    requires c.Valid()
    ensures exists samples ::
      && Located(c.stream, c.ratio, samples) && Sent(samples, Flatten(c.posted), c.buf)
      && forall k: nat :: k < |samples| <==> IndexAt(k, c.ratio) < |c.stream|
    ensures |c.buf| < c.chunk && forall m <- c.posted :: |m| == c.chunk && forall v <- m :: -0x8000 <= v <= 0x7FFF
  {
    var samples := Samples(c.stream, c.ratio, c.taken);
    SamplesLocated(c.stream, c.ratio, c.taken);
    ChunksSend(samples, c.chunk);
    ChunksPartition(samples, c.chunk);
    forall k: nat ensures k < |samples| <==> IndexAt(k, c.ratio) < |c.stream| {
      PositionsInside(|c.stream|, c.ratio, c.taken, k);
    }
  }
}
