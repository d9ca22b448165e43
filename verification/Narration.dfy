/**
 The narration sidecar: one voice per chapter, paragraphs laid end to end with silence between them, and a
 timing manifest in whole milliseconds. Samples are integers, durations exact quotients.
 */
module Narration {
  import opened Prelude
  import Text

  // The sample rate assumed until the model is loaded
  const DEFAULT_RATE := 24000

  // ----- rounding -------------------------------------------------------------------------------------

  // Python's `round(a / b)`: to the nearest integer, a half to the even one
  function RoundDiv(a: nat, b: nat): (r: nat)
    requires b > 0
    ensures 2 * a - b <= 2 * b * r <= 2 * a + b
    ensures 2 * b * r == 2 * a - b || 2 * b * r == 2 * a + b ==> r % 2 == 0
  {
    var q, m := a / b, a % b;
    Quotient(a, b, q, m);
    if 2 * m < b || (2 * m == b && q % 2 == 0) then q
    else q + 1
  }

  lemma Quotient(a: nat, b: nat, q: nat, m: nat)
    requires b > 0 && q == a / b && m == a % b
    ensures 2 * b * q == 2 * a - 2 * m
    ensures 2 * b * (q + 1) == 2 * a - 2 * m + 2 * b
  {
    assert a == b * q + m;
    assert 2 * b * q == 2 * (b * q);
    assert 2 * b * (q + 1) == 2 * b * q + 2 * b;
  }

  // ----- the layout of a chapter ----------------------------------------------------------------------

  function Zeros(n: nat): (r: seq<int>)
    ensures |r| == n && forall i | 0 <= i < n :: r[i] == 0
  {
    seq(n, _ => 0)
  }

  // Paragraphs out of `n`, each but the very last followed by the gap
  function Laid(paras: seq<seq<int>>, gap: nat, n: nat): seq<int> {
    if paras == [] then []
    else
      var last := |paras| - 1;
      Laid(paras[..last], gap, n) + paras[last] + if |paras| < n then Zeros(gap) else []
  }

  function Layout(paras: seq<seq<int>>, gap: nat): seq<int> {
    Laid(paras, gap, |paras|)
  }

  function Samples(paras: seq<seq<int>>): nat {
    if paras == [] then 0 else Samples(paras[..|paras| - 1]) + |paras[|paras| - 1]|
  }

  lemma {:induction false} LaidLength(paras: seq<seq<int>>, gap: nat, n: nat)
    requires |paras| <= n
    ensures |Laid(paras, gap, n)| ==
      Samples(paras) + if |paras| < n || paras == [] then |paras| * gap else (n - 1) * gap
  {
    if paras != [] {
      var last := |paras| - 1;
      LaidLength(paras[..last], gap, n);
      assert (last + 1) * gap == last * gap + gap;
    }
  }

  lemma {:induction false} LaidGrows(paras: seq<seq<int>>, gap: nat, n: nat, i: nat)
    requires i <= |paras|
    ensures Laid(paras[..i], gap, n) <= Laid(paras, gap, n)
  {
    if i < |paras| {
      var last := |paras| - 1;
      LaidGrows(paras[..last], gap, n, i);
      assert paras[..last][..i] == paras[..i];
    } else {
      assert paras[..i] == paras;
    }
  }

  lemma ParagraphFollows(paras: seq<seq<int>>, gap: nat, i: nat)
    requires i < |paras|
    ensures var at := |Laid(paras[..i], gap, |paras|)|;
      && at + |paras[i]| <= |Layout(paras, gap)|
      && Layout(paras, gap)[at..at + |paras[i]|] == paras[i]
      && (i + 1 < |paras| ==>
            && at + |paras[i]| + gap <= |Layout(paras, gap)|
            && Layout(paras, gap)[at + |paras[i]|..at + |paras[i]| + gap] == Zeros(gap))
  {
    var n := |paras|;
    LaidGrows(paras, gap, n, i + 1);
    assert paras[..i + 1][..i] == paras[..i];
    var before, silence := Laid(paras[..i], gap, n), if i + 1 < n then Zeros(gap) else [];
    var upTo := before + paras[i] + silence;
    SliceOfPrefix(upTo, Layout(paras, gap), |before|, |before| + |paras[i]|);
    SliceOfPrefix(upTo, Layout(paras, gap), |before| + |paras[i]|, |upTo|);
    assert upTo[|before|..|before| + |paras[i]|] == paras[i];
    assert upTo[|before| + |paras[i]|..|upTo|] == silence;
  }

  /** Paragraph `i` sits exactly at the sum of the earlier lengths and gaps, with silence after it. */
  lemma ParagraphSits(paras: seq<seq<int>>, gap: nat, i: nat)
    requires i < |paras|
    ensures |Layout(paras, gap)| == Samples(paras) + (|paras| - 1) * gap
    ensures var at := Samples(paras[..i]) + i * gap;
      && at + |paras[i]| <= |Layout(paras, gap)|
      && Layout(paras, gap)[at..at + |paras[i]|] == paras[i]
      && (i + 1 < |paras| ==>
            && at + |paras[i]| + gap <= |Layout(paras, gap)|
            && forall j | at + |paras[i]| <= j < at + |paras[i]| + gap :: Layout(paras, gap)[j] == 0)
  {
    LaidLength(paras, gap, |paras|);
    LaidLength(paras[..i], gap, |paras|);
    ParagraphFollows(paras, gap, i);
    var at := Samples(paras[..i]) + i * gap;
    if i + 1 < |paras| {
      SilentSlice(Layout(paras, gap), at + |paras[i]|, at + |paras[i]| + gap);
    }
  }

  lemma SilentSlice(s: seq<int>, lo: nat, hi: nat)
    requires lo <= hi <= |s| && s[lo..hi] == Zeros(hi - lo)
    ensures forall j | lo <= j < hi :: s[j] == 0
  {
    assert forall j | lo <= j < hi :: s[j] == s[lo..hi][j - lo];
  }

  lemma SliceOfPrefix(p: seq<int>, s: seq<int>, lo: nat, hi: nat)
    requires p <= s && lo <= hi <= |p|
    ensures p[lo..hi] == s[lo..hi]
  {}

  // ----- the manifest ---------------------------------------------------------------------------------

  function Sum(xs: seq<nat>): nat {
    if xs == [] then 0 else Sum(xs[..|xs| - 1]) + xs[|xs| - 1]
  }

  function Durations(paras: seq<seq<int>>, rate: nat): (ds: seq<nat>)
    requires rate > 0
    ensures |ds| == |paras|
    ensures forall i | 0 <= i < |paras| :: Near(rate, ds[i], |paras[i]|, rate)
  {
    seq(|paras|, i requires 0 <= i < |paras| => RoundDiv(|paras[i]| * 1000, rate))
  }

  // `2 * rate * total` is within `slack` of `2000 * samples`.
  predicate Near(rate: int, total: int, samples: int, slack: int) {
    2000 * samples - slack <= 2 * rate * total <= 2000 * samples + slack
  }

  lemma NearAdds(rate: int, x: int, s: int, n: int, y: int, t: int)
    requires Near(rate, x, s, n * rate) && Near(rate, y, t, rate)
    ensures Near(rate, x + y, s + t, (n + 1) * rate)
  {
    assert 2 * rate * (x + y) == 2 * rate * x + 2 * rate * y;
    assert (n + 1) * rate == n * rate + rate;
  }

  lemma DurationNear(samples: nat, rate: nat)
    requires rate > 0
    ensures Near(rate, RoundDiv(samples * 1000, rate), samples, rate)
  {}

  lemma {:induction false} DurationsSum(paras: seq<seq<int>>, rate: nat)
    requires rate > 0
    ensures Near(rate, Sum(Durations(paras, rate)), Samples(paras), |paras| * rate)
  {
    if paras != [] {
      var n := |paras| - 1;
      var front, ds := paras[..n], Durations(paras, rate);
      DurationsSum(front, rate);
      assert ds[..n] == Durations(front, rate);
      DurationNear(|paras[n]|, rate);
      NearAdds(rate, Sum(ds[..n]), Samples(front), n, ds[n], |paras[n]|);
    }
  }

  // The manifest's own account of the chapter, minus its total, in units of 1 / (2 * rate) ms
  function Error(paras: seq<seq<int>>, gap: nat, silence: nat, rate: nat): int
    requires rate > 0 && paras != []
  {
    2 * rate * (Sum(Durations(paras, rate)) + (|paras| - 1) * silence - RoundDiv(|Layout(paras, gap)| * 1000, rate))
  }

  // The error is the rounding of n + 1 durations, half a millisecond each, and what the gaps fall short by.
  lemma ErrorIsRoundingAndGaps(paras: seq<seq<int>>, gap: nat, silence: nat, rate: nat)
    requires rate > 0 && paras != []
    ensures Explained(|paras|, rate, rate * silence - 1000 * gap, Error(paras, gap, silence, rate))
  {
    var n, total := |paras|, |Layout(paras, gap)|;
    ParagraphSits(paras, gap, 0);
    DurationsSum(paras, rate);
    DurationNear(total, rate);
    ErrorArithmetic(n, rate, gap, silence, Sum(Durations(paras, rate)), Samples(paras), total,
                    RoundDiv(total * 1000, rate));
  }

  lemma ErrorArithmetic(n: int, rate: int, gap: int, silence: int, ds: int, samples: int, total: int, d: int)
    requires Near(rate, ds, samples, n * rate) && Near(rate, d, total, rate) && total == samples + (n - 1) * gap
    ensures var short := 2 * ((n - 1) * (rate * silence - 1000 * gap));
      short - (n + 1) * rate <= 2 * rate * (ds + (n - 1) * silence - d) <= short + (n + 1) * rate
  {
    var k := n - 1;
    assert (n + 1) * rate == n * rate + rate;
    assert 2 * rate * (ds + k * silence - d) == 2 * rate * ds + 2 * rate * (k * silence) - 2 * rate * d;
    assert 2 * rate * (k * silence) == 2 * (k * (rate * silence)) by {
      Swap(rate, k, silence);
    }
    assert k * (rate * silence - 1000 * gap) == k * (rate * silence) - 1000 * (k * gap);
  }

  lemma Swap(r: int, k: int, s: int)
    ensures r * (k * s) == k * (r * s)
  {}

  // |sum of durations + (n - 1) * silence - total| <= n/2 + 1/2 + (n - 1) * 1000 / rate, in the same units
  predicate Within(n: nat, rate: nat, error: int) {
    var bound := (n + 1) * rate + 2000 * (n - 1);
    0 - bound <= error <= bound
  }

  predicate WithinBound(paras: seq<seq<int>>, gap: nat, silence: nat, rate: nat)
    requires rate > 0 && paras != []
  {
    Within(|paras|, rate, Error(paras, gap, silence, rate))
  }

  // Rounding around what the gaps fall short by
  predicate Explained(n: nat, rate: nat, short: int, error: int) {
    2 * ((n - 1) * short) - (n + 1) * rate <= error <= 2 * ((n - 1) * short) + (n + 1) * rate
  }

  function Gap(rate: nat, silence: nat): nat {
    rate * silence / 1000
  }

  // The samples of the gap are those that fit in the silence, and not one fewer.
  lemma GapFits(rate: nat, silence: nat)
    ensures 1000 * Gap(rate, silence) <= rate * silence < 1000 * (Gap(rate, silence) + 1)
  {
    GapIsCut(rate * silence);
  }

  lemma GapIsCut(x: nat)
    ensures 0 <= x - 1000 * (x / 1000) < 1000
  {}

  lemma ShortBy(k: nat, f: nat)
    requires f < 1000
    ensures 0 <= k * f <= 1000 * k
  {}

  lemma ExactRateError(n: nat, rate: nat, short: nat, error: int)
    requires n >= 1 && short < 1000 && Explained(n, rate, short, error)
    ensures Within(n, rate, error)
  {
    ShortBy(n - 1, short);
  }

  /** With the gap cut at the rate of the audio, the manifest adds up to within its rounding. */
  lemma TimingBound(paras: seq<seq<int>>, silence: nat, rate: nat)
    requires rate > 0 && paras != []
    ensures WithinBound(paras, Gap(rate, silence), silence, rate)
  {
    var gap := Gap(rate, silence);
    ErrorIsRoundingAndGaps(paras, gap, silence, rate);
    GapIsCut(rate * silence);
    ExactRateError(|paras|, rate, rate * silence - 1000 * gap, Error(paras, gap, silence, rate));
  }

  function Distance(x: nat, y: nat): nat {
    if x < y then y - x else x - y
  }

  // The most that gaps cut at the default rate can be off for the bound to be sure to hold, or to fail
  predicate NearDefault(n: nat, silence: nat, rate: nat) {
    n <= 1 || silence * Distance(rate, DEFAULT_RATE) <= 1000
  }

  predicate FarFromDefault(n: nat, silence: nat, rate: nat) {
    n >= 1 && (n - 1) * (silence * Distance(rate, DEFAULT_RATE)) > (n + 1) * rate + 1000 * (n - 1)
  }

  lemma DefaultGap(silence: nat, rate: nat)
    ensures Gap(DEFAULT_RATE, silence) == 24 * silence
    ensures rate * silence - 1000 * Gap(DEFAULT_RATE, silence)
      == if rate < DEFAULT_RATE then 0 - silence * Distance(rate, DEFAULT_RATE)
         else silence * Distance(rate, DEFAULT_RATE)
  {
    assert DEFAULT_RATE * silence == 1000 * (24 * silence);
    if rate < DEFAULT_RATE {
      assert rate * silence - DEFAULT_RATE * silence == 0 - silence * (DEFAULT_RATE - rate);
    } else {
      assert rate * silence - DEFAULT_RATE * silence == silence * (rate - DEFAULT_RATE);
    }
  }

  lemma Shortfall(k: nat, x: nat, y: int)
    requires y == x || y == 0 - x
    ensures k * y == k * x || k * y == 0 - k * x
    ensures k == 0 || x <= 1000 ==> k * x <= 1000 * k
  {}

  // The bound, from the shortfall `short` of all gaps and the rounding `slack`
  lemma BoundFrom(k: nat, slack: int, off: int, short: int, err: int)
    requires 2 * short - slack <= err <= 2 * short + slack && (short == off || short == 0 - off)
    ensures off <= 1000 * k && off >= 0 ==> 0 - (slack + 2000 * k) <= err <= slack + 2000 * k
    ensures off > slack + 1000 * k ==> !(0 - (slack + 2000 * k) <= err <= slack + 2000 * k)
  {}

  lemma DefaultRateError(n: nat, silence: nat, rate: nat, short: int, error: int)
    requires n >= 1 && Explained(n, rate, short, error)
    requires var x := silence * Distance(rate, DEFAULT_RATE); short == x || short == 0 - x
    ensures NearDefault(n, silence, rate) ==> Within(n, rate, error)
    ensures FarFromDefault(n, silence, rate) ==> !Within(n, rate, error)
  {
    var k, x := n - 1, silence * Distance(rate, DEFAULT_RATE);
    Shortfall(k, x, short);
    BoundFrom(k, (n + 1) * rate, k * x, k * short, error);
  }

  /**
   Before the model is loaded the gap is cut at 24000 Hz. For any paragraphs the bound then still holds if there
   is only one or the rates are near each other, and fails if they are far apart. In between it depends on how
   the durations round.
   */
  lemma DefaultRateGaps(paras: seq<seq<int>>, silence: nat, rate: nat)
    requires rate > 0 && paras != []
    ensures NearDefault(|paras|, silence, rate) ==> WithinBound(paras, Gap(DEFAULT_RATE, silence), silence, rate)
    ensures FarFromDefault(|paras|, silence, rate) ==> !WithinBound(paras, Gap(DEFAULT_RATE, silence), silence, rate)
  {
    var gap := Gap(DEFAULT_RATE, silence);
    ErrorIsRoundingAndGaps(paras, gap, silence, rate);
    DefaultGap(silence, rate);
    DefaultRateError(|paras|, silence, rate, rate * silence - 1000 * gap, Error(paras, gap, silence, rate));
  }

  /** For a 48000 Hz model and the default silence, any two paragraphs are off. */
  lemma FirstRequestExample(a: seq<int>, b: seq<int>)
    ensures !WithinBound([a, b], Gap(DEFAULT_RATE, 350), 350, 48000)
  {
    DefaultRateGaps([a, b], 350, 48000);
  }

  // ----- the service ----------------------------------------------------------------------------------

  datatype Request = Request(paragraphs: seq<string>, voice: string, silence: Option<int>)

  datatype Narrated = Narrated(pcm: seq<int>, durations: seq<nat>, duration: nat, silence: nat)

  const MAX_PARAGRAPHS := 2000
  const MAX_TOTAL_CHARS := 400000

  // What happens outside during one request: does the model load, does a voice prompt get made, what does each
  // generation return, and is the audio encoded?
  datatype Engine = Engine(loads: bool, prompt: Option<nat>, speech: nat -> Option<seq<int>>, encodes: bool)

  datatype Act = Built(voice: string, prompt: nat) | Spoke(voice: string, prompt: nat, text: string)

  function Spoken(ps: seq<string>): seq<string> {
    if ps == [] then []
    else
      var p := Text.Strip(ps[|ps| - 1]);
      Spoken(ps[..|ps| - 1]) + if p == "" then [] else [p]
  }

  function Chars(ps: seq<string>): nat {
    if ps == [] then 0 else Chars(ps[..|ps| - 1]) + |ps[|ps| - 1]|
  }

  lemma {:induction false} CharsAppend(a: seq<string>, b: seq<string>)
    ensures Chars(a + b) == Chars(a) + Chars(b) && forall p: string :: Chars([p]) == |p|
  {
    if b == [] {
      assert a + b == a;
    } else {
      var n := |b| - 1;
      assert (a + b)[..|a + b| - 1] == a + b[..n];
      CharsAppend(a, b[..n]);
    }
  }

  function NatOf(x: int): nat {
    if x >= 0 then x else 0
  }

  function Silence(req: Request): nat {
    var s := if req.silence.None? then 350 else req.silence.value;
    if s < 0 then 0 else s
  }

  // The request passes every check made before the model is touched.
  predicate Admissible(req: Request, voices: map<string, bool>) {
    && Spoken(req.paragraphs) != [] && |Spoken(req.paragraphs)| <= MAX_PARAGRAPHS
    && Chars(Spoken(req.paragraphs)) <= MAX_TOTAL_CHARS
    && req.voice in voices && voices[req.voice]
  }

  // What the receiver demands of a manifest, for the number of paragraphs it sent
  predicate Accepted(n: Narrated, sent: nat) {
    n.duration > 0 && |n.durations| == sent
  }

  lemma {:induction false} SpokenAll(ps: seq<string>)
    ensures |Spoken(ps)| <= |ps|
    ensures |Spoken(ps)| == |ps| <==> forall p | p in ps :: Text.Strip(p) != ""
  {
    if ps != [] {
      SpokenAll(ps[..|ps| - 1]);
      assert ps[|ps| - 1] in ps;
      assert forall p | p in ps[..|ps| - 1] :: p in ps;
      assert forall p | p in ps :: p in ps[..|ps| - 1] || p == ps[|ps| - 1];
    }
  }

  // A paragraph that is not blank is spoken, stripped, in its place among those before it.
  lemma {:induction false} SpokenAt(ps: seq<string>, i: nat)
    requires i < |ps| && Text.Strip(ps[i]) != ""
    ensures |Spoken(ps[..i])| < |Spoken(ps)| && Spoken(ps)[|Spoken(ps[..i])|] == Text.Strip(ps[i])
  {
    var n := |ps| - 1;
    if i < n {
      assert ps[..n][..i] == ps[..i];
      SpokenAt(ps[..n], i);
    }
  }

  // Nothing else is spoken.
  lemma {:induction false} SpokenFrom(ps: seq<string>, x: nat)
    requires x < |Spoken(ps)|
    ensures exists i: nat :: i < |ps| && Spoken(ps)[x] == Text.Strip(ps[i]) != "" && |Spoken(ps[..i])| == x
  {
    var n := |ps| - 1;
    if x < |Spoken(ps[..n])| {
      SpokenFrom(ps[..n], x);
      var i: nat :| i < n && Spoken(ps[..n])[x] == Text.Strip(ps[..n][i]) != "" && |Spoken(ps[..n][..i])| == x;
      assert ps[..n][..i] == ps[..i] && ps[..n][i] == ps[i];
    }
  }

  lemma NothingSpoken(ps: seq<string>)
    ensures Spoken(ps) == [] <==> forall p | p in ps :: Text.Strip(p) == ""
  {
    if Spoken(ps) != [] {
      SpokenFrom(ps, 0);
    } else if i: nat :| i < |ps| && Text.Strip(ps[i]) != "" {
      SpokenAt(ps, i);
    }
  }

  // Each voice was built at most once, and everything it ever spoke was spoken with that one prompt.
  ghost predicate Steady(prompts: map<string, nat>, log: seq<Act>) {
    && (forall v | v in prompts :: Built(v, prompts[v]) in log)
    && (forall i | 0 <= i < |log| :: log[i].voice in prompts && log[i].prompt == prompts[log[i].voice])
    && (forall i, j | 0 <= i < j < |log| && log[i].Built? && log[j].Built? :: log[i].voice != log[j].voice)
  }

  lemma SteadyBuild(prompts: map<string, nat>, log: seq<Act>, v: string, p: nat)
    requires Steady(prompts, log) && v !in prompts
    ensures Steady(prompts[v := p], log + [Built(v, p)])
  {}

  lemma SteadySpeak(prompts: map<string, nat>, log: seq<Act>, v: string, text: string)
    requires Steady(prompts, log) && v in prompts
    ensures Steady(prompts, log + [Spoke(v, prompts[v], text)])
  {
    forall w | w in prompts ensures Built(w, prompts[w]) in log + [Spoke(v, prompts[v], text)] {
      assert Built(w, prompts[w]) in log;
    }
  }

  /** A voice keeps one prompt for good: whatever it spoke, whenever, it spoke with the prompt it was built with. */
  lemma OnePromptPerVoice(prompts: map<string, nat>, log: seq<Act>, i: nat, j: nat)
    requires Steady(prompts, log) && i < |log| && j < |log| && log[i].voice == log[j].voice
    ensures log[i].prompt == log[j].prompt
    ensures log[i].Built? && log[j].Built? ==> i == j
    ensures exists b: nat :: b < |log| && log[b] == Built(log[i].voice, log[i].prompt)
  {
    assert Built(log[i].voice, prompts[log[i].voice]) in log;
  }

  // The model and the voice's prompt are there, or can be had.
  predicate CanSpeak(loaded: bool, prompts: map<string, nat>, voice: string, e: Engine) {
    (loaded || e.loads) && (voice in prompts || e.prompt.Some?)
  }

  ghost predicate IsSpeech(paras: seq<seq<int>>, e: Engine) {
    forall i: nat | i < |paras| :: e.speech(i) == Some(paras[i])
  }

  // The last acts are these texts, spoken in this order in this voice with this prompt.
  ghost predicate LastSpoke(log: seq<Act>, texts: seq<string>, voice: string, prompt: nat) {
    |texts| <= |log| && forall k | 0 <= k < |texts| :: log[|log| - |texts| + k] == Spoke(voice, prompt, texts[k])
  }

  lemma SpokeMore(before: seq<Act>, after: seq<Act>, texts: seq<string>, i: nat, voice: string, prompt: nat)
    requires i < |texts|
    requires before <= after && |before| < |after| && after[|after| - 1] == Spoke(voice, prompt, texts[i])
    requires i > 0 ==> |after| == |before| + 1 && LastSpoke(before, texts[..i], voice, prompt)
    ensures LastSpoke(after, texts[..i + 1], voice, prompt)
  {}

  // `np.concatenate`
  function Flat(chunks: seq<seq<int>>): seq<int> {
    if chunks == [] then [] else Flat(chunks[..|chunks| - 1]) + chunks[|chunks| - 1]
  }

  lemma AppendChunk(chunks: seq<seq<int>>, c: seq<int>)
    ensures Flat(chunks + [c]) == Flat(chunks) + c
  {
    assert (chunks + [c])[..|chunks + [c]| - 1] == chunks;
  }

  // What the paragraph loop has produced from `paras`, the first of `n`
  ghost predicate SoFar(paras: seq<seq<int>>, chunks: seq<seq<int>>, durations: seq<nat>, n: nat, gap: nat, rate: nat,
      e: Engine) {
    && IsSpeech(paras, e) && Flat(chunks) == Laid(paras, gap, n)
    && if paras == [] then durations == [] else rate > 0 && durations == Durations(paras, rate)
  }

  lemma SoFarGrows(paras: seq<seq<int>>, chunks: seq<seq<int>>, durations: seq<nat>, para: seq<int>,
      longer: seq<seq<int>>, n: nat, gap: nat, rate: nat, e: Engine)
    requires SoFar(paras, chunks, durations, n, gap, rate, e) && rate > 0 && e.speech(|paras|) == Some(para)
    requires Flat(longer) == Flat(chunks) + para + if |paras| + 1 < n then Zeros(gap) else []
    ensures SoFar(paras + [para], longer, durations + [RoundDiv(|para| * 1000, rate)], n, gap, rate, e)
  {
    assert (paras + [para])[..|paras|] == paras;
    assert Durations(paras + [para], rate) == Durations(paras, rate) + [RoundDiv(|para| * 1000, rate)];
  }

  class Sidecar {
    const modelRate: nat
    var loaded: bool
    var rate: nat
    var prompts: map<string, nat>
    ghost var log: seq<Act>

    ghost predicate Valid()
      reads this
    {
      && rate == (if loaded then modelRate else DEFAULT_RATE)
      && (prompts != map[] ==> loaded)
      && Steady(prompts, log)
    }

    // What never changes: history, and the voices it fixed
    twostate predicate Later()
      reads this
    {
      && old(log) <= log && (old(loaded) ==> loaded)
      && (forall v | v in old(prompts) :: v in prompts && prompts[v] == old(prompts)[v])
    }

    constructor (modelRate: nat)
      ensures Valid() && !loaded && log == []
      ensures this.modelRate == modelRate
    {
      this.modelRate := modelRate;
      loaded, rate, prompts, log := false, DEFAULT_RATE, map[], [];
    }

    method EnsureModel(e: Engine) returns (ok: bool)
      requires Valid()
      modifies `loaded, `rate
      ensures Valid() && ok == loaded == (old(loaded) || e.loads)
    {
      if !loaded && e.loads {
        loaded := true;
        rate := modelRate;
      }
      ok := loaded;
    }

    /** `_clone_prompt_for`: the cached prompt, or a new one that is then cached. */
    method ClonePromptFor(voice: string, e: Engine) returns (r: Option<nat>)
      requires Valid()
      modifies this
      ensures Valid() && Later() && rate == (if loaded then modelRate else DEFAULT_RATE)
      ensures voice in old(prompts) ==> r == Some(old(prompts)[voice]) && log == old(log)
      ensures voice !in old(prompts) && r.Some? ==> log == old(log) + [Built(voice, r.value)]
      ensures voice !in old(prompts) ==> (r.Some? <==> (old(loaded) || e.loads) && e.prompt.Some?)
      ensures r.Some? ==> loaded && voice in prompts && prompts[voice] == r.value
    {
      if voice in prompts {
        return Some(prompts[voice]);
      }
      var ok := EnsureModel(e);
      if !ok || e.prompt.None? {
        return None;
      }
      SteadyBuild(prompts, log, voice, e.prompt.value);
      prompts := prompts[voice := e.prompt.value];
      log := log + [Built(voice, e.prompt.value)];
      r := e.prompt;
    }

    /** `_generate`: one paragraph in one voice */
    method Generate(voice: string, text: string, e: Engine, i: nat) returns (r: Option<seq<int>>)
      requires Valid()
      modifies this
      ensures Valid() && Later()
      ensures r.Some? <==> CanSpeak(old(loaded), old(prompts), voice, e) && e.speech(i).Some?
      ensures r.Some? ==> r == e.speech(i) && loaded && voice in prompts
      ensures r.Some? && voice in old(prompts) ==> log == old(log) + [Spoke(voice, prompts[voice], text)]
      ensures r.Some? && voice !in old(prompts) ==>
        log == old(log) + [Built(voice, prompts[voice]), Spoke(voice, prompts[voice], text)]
    {
      var ok := EnsureModel(e);
      if !ok {
        return None;
      }
      var prompt := ClonePromptFor(voice, e);
      if prompt.None? || e.speech(i).None? {
        return None;
      }
      SteadySpeak(prompts, log, voice, text);
      log := log + [Spoke(voice, prompt.value, text)];
      r := e.speech(i);
    }

    /**
     `narrate`. The gap is cut before the model is loaded, at the rate known by then; everything else uses the
     model's rate. The timing bound holds once the model is loaded, and before that as far as the rates are near.
     */
    method Narrate(req: Request, voices: map<string, bool>, e: Engine) returns (r: Result<Narrated, nat>)
      requires Valid()
      modifies this
      ensures Valid() && Later()
      ensures r.Err? ==> r.error in {400, 404, 413, 500, 503} && (r.error != 500 ==> log == old(log))
      ensures r == Err(400) <==> forall p | p in req.paragraphs :: Text.Strip(p) == ""
      ensures r == Err(413) <==> |Spoken(req.paragraphs)| > 2000 || Chars(Spoken(req.paragraphs)) > 400000
      ensures r == Err(404) || r == Err(503) ==> (r == Err(404) <==> req.voice !in voices)
      ensures r == Err(404) || r == Err(503) <==>
        && r != Err(400) && r != Err(413) && (req.voice in voices ==> !voices[req.voice])
      ensures Admissible(req, voices) <==> r.Ok? || r == Err(500)
      ensures Admissible(req, voices) ==>
        (r.Ok? <==>
          && CanSpeak(old(loaded), old(prompts), req.voice, e) && modelRate > 0
          && e.encodes && forall i: nat | i < |Spoken(req.paragraphs)| :: e.speech(i).Some?)
      ensures r.Ok? ==> modelRate > 0 && |r.value.durations| == |Spoken(req.paragraphs)|
      ensures r.Ok? ==> exists paras: seq<seq<int>> ::
        && |paras| == |Spoken(req.paragraphs)| > 0 && IsSpeech(paras, e)
        && r.value.silence == Silence(req) == NatOf(if req.silence.Some? then req.silence.value else 350)
        && r.value.pcm == Layout(paras, Gap(old(rate), Silence(req)))
        && r.value.durations == Durations(paras, modelRate)
        && r.value.duration == RoundDiv(|r.value.pcm| * 1000, modelRate)
        && (old(loaded) || NearDefault(|paras|, Silence(req), modelRate) ==>
              WithinBound(paras, Gap(old(rate), Silence(req)), Silence(req), modelRate))
        && (!old(loaded) && FarFromDefault(|paras|, Silence(req), modelRate) ==>
              !WithinBound(paras, Gap(old(rate), Silence(req)), Silence(req), modelRate))
      ensures r.Ok? ==> (Accepted(r.value, |req.paragraphs|) <==>
        r.value.duration > 0 && forall p | p in req.paragraphs :: Text.Strip(p) != "")
      ensures r.Ok? ==> req.voice in prompts && |log| >= |old(log)| + |r.value.durations|
      ensures r.Ok? ==> LastSpoke(log, Spoken(req.paragraphs), req.voice, prompts[req.voice])
    {
      var paras := Spoken(req.paragraphs);
      NothingSpoken(req.paragraphs);
      if paras == [] {
        return Err(400);
      }
      if |paras| > MAX_PARAGRAPHS {
        return Err(413);
      }
      if Chars(paras) > MAX_TOTAL_CHARS {
        return Err(413);
      }
      if req.voice !in voices {
        return Err(404);
      }
      if !voices[req.voice] {
        return Err(503);
      }
      var silence := Silence(req);
      var gap := Gap(rate, silence);
      var ok, pcm, durations, pcms := Perform(req.voice, paras, gap, e);
      if !ok || !e.encodes {
        return Err(500);
      }
      if old(loaded) {
        TimingBound(pcms, silence, rate);
      } else {
        DefaultRateGaps(pcms, silence, rate);
      }
      SpokenAll(req.paragraphs);
      r := Ok(Narrated(pcm, durations, RoundDiv(|pcm| * 1000, rate), silence));
    }

    // The paragraph loop
    method Perform(voice: string, texts: seq<string>, gap: nat, e: Engine)
      returns (ok: bool, pcm: seq<int>, durations: seq<nat>, ghost pcms: seq<seq<int>>)
      requires Valid() && texts != []
      modifies this
      ensures Valid() && Later()
      ensures ok <==>
        && CanSpeak(old(loaded), old(prompts), voice, e) && modelRate > 0
        && forall k: nat | k < |texts| :: e.speech(k).Some?
      ensures ok ==> loaded && modelRate > 0 && |pcms| == |texts| && IsSpeech(pcms, e)
      ensures ok ==> pcm == Layout(pcms, gap) && durations == Durations(pcms, modelRate)
      ensures ok ==> voice in prompts && |log| >= |old(log)| + |texts| && LastSpoke(log, texts, voice, prompts[voice])
    {
      var n := |texts|;
      var chunks: seq<seq<int>> := [];
      ok, pcm, durations, pcms := false, [], [], [];
      for i := 0 to n
        invariant |pcms| == i && Valid() && Later()
        invariant CanSpeak(loaded, prompts, voice, e) == CanSpeak(old(loaded), old(prompts), voice, e)
        invariant i > 0 ==> loaded && modelRate > 0 && voice in prompts
        invariant SoFar(pcms, chunks, durations, n, gap, modelRate, e)
        invariant |log| >= |old(log)| + i && (i > 0 ==> LastSpoke(log, texts[..i], voice, prompts[voice]))
      {
        ghost var before := log;
        var para := Generate(voice, texts[i], e, i);
        if para.None? || rate == 0 {
          return;
        }
        SpokeMore(before, log, texts, i, voice, prompts[voice]);
        var longer := Append(chunks, para.value, gap, i + 1 < n);
        SoFarGrows(pcms, chunks, durations, para.value, longer, n, gap, rate, e);
        chunks, durations := longer, durations + [RoundDiv(|para.value| * 1000, rate)];
        pcms := pcms + [para.value];
      }
      assert texts[..n] == texts;
      ok, pcm := true, Flat(chunks);
    }

    // A paragraph, and unless it is the last one the gap; a gap of no samples adds nothing.
    method Append(chunks: seq<seq<int>>, para: seq<int>, gap: nat, more: bool) returns (r: seq<seq<int>>)
      ensures Flat(r) == Flat(chunks) + para + if more then Zeros(gap) else []
    {
      AppendChunk(chunks, para);
      r := chunks + [para];
      if gap > 0 && more {
        AppendChunk(r, Zeros(gap));
        r := r + [Zeros(gap)];
      }
    }
  }
}
