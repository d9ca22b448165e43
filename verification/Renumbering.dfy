/**
 `update_source_offset`: a source's chapters move to new global numbers, together with the references to
 them. The chapter numbers are shifted in two statements, up by a million and back, because PostgreSQL checks
 the key (novel, number) row by row. Numbers and offsets are exact here.
 */
module Renumbering {
  import opened Prelude

  const DETOUR := 1000000.0

  // `local` is the number the source itself uses; the database stores only the global number, in the key.
  datatype Chapter = Chapter(source: Option<nat>, local: real, body: nat)

  datatype Source = Source(novel: nat, offset: real)

  datatype Bookmark = Bookmark(user: nat, novel: nat, chapter: real)

  datatype Progress = Progress(last: Option<real>, maxRead: Option<real>)

  // A codex artifact covers the chapter numbers from `start` through `through`.
  datatype Artifact = Artifact(novel: nat, start: real, through: real)

  type Chapters = map<Key, Chapter>

  predicate Of(ch: Chapters, s: nat, k: Key) {
    k in ch && ch[k].source == Some(s)
  }

  function Shift(k: Key, d: real): Key {
    Key(k.novel, k.number + d)
  }

  // What stands at `k` once every chapter of source `s` has moved by `d` and every other chapter stayed.
  predicate ShiftedAt(ch: Chapters, next: Chapters, s: nat, d: real, k: Key) {
    var back := Shift(k, 0.0 - d);
    && (k in next <==> (k in ch && !Of(ch, s, k)) || Of(ch, s, back))
    && (Of(ch, s, back) ==> k in next && next[k] == ch[back])
    && (k in ch && !Of(ch, s, k) ==> k in next && next[k] == ch[k])
  }

  ghost predicate IsShift(ch: Chapters, next: Chapters, s: nat, d: real) {
    forall k: Key :: ShiftedAt(ch, next, s, d, k)
  }

  // No chapter of another source stands where one of source `s` would move to.
  ghost predicate ForeignFree(ch: Chapters, s: nat, d: real) {
    forall k: Key, m: Key {:trigger Of(ch, s, k), m in ch} ::
      Of(ch, s, k) && m in ch && m == Shift(k, d) ==> Of(ch, s, m)
  }

  // No two chapters of source `s` are exactly `d` apart.
  ghost predicate OwnFree(ch: Chapters, s: nat, d: real) {
    forall k: Key, m: Key {:trigger Of(ch, s, k), Of(ch, s, m)} :: Of(ch, s, k) && Of(ch, s, m) ==> m != Shift(k, d)
  }

  // A shift in progress: the rows in `moved` have arrived, all others are where they were.
  predicate PartialAt(ch: Chapters, cur: Chapters, moved: set<Key>, d: real, k: Key) {
    var back := Shift(k, 0.0 - d);
    && (k in cur <==> (k in ch && k !in moved) || back in moved)
    && (back in moved && back in ch ==> k in cur && cur[k] == ch[back])
    && (k in ch && k !in moved ==> k in cur && cur[k] == ch[k])
  }

  ghost predicate Partial(ch: Chapters, cur: Chapters, moved: set<Key>, d: real) {
    forall k: Key :: PartialAt(ch, cur, moved, d, k)
  }

  lemma ShiftBack(k: Key, d: real)
    ensures Shift(Shift(k, d), 0.0 - d) == k && Shift(Shift(k, 0.0 - d), d) == k
  {}

  // A shift is determined by what it shifts.
  lemma ShiftIsUnique(ch: Chapters, a: Chapters, b: Chapters, s: nat, d: real)
    requires IsShift(ch, a, s, d) && IsShift(ch, b, s, d)
    ensures a == b
  {
    forall k: Key ensures (k in a <==> k in b) && (k in a ==> a[k] == b[k]) {
      assert ShiftedAt(ch, a, s, d, k) && ShiftedAt(ch, b, s, d, k);
    }
  }

  // After a shift, the chapters of the source are exactly the moved ones.
  lemma ShiftedRows(ch: Chapters, next: Chapters, s: nat, d: real, k: Key)
    requires IsShift(ch, next, s, d)
    ensures Of(next, s, k) <==> Of(ch, s, Shift(k, 0.0 - d))
    ensures Of(next, s, Shift(k, d)) <==> Of(ch, s, k)
  {
    ShiftBack(k, d);
    assert ShiftedAt(ch, next, s, d, k);
    assert ShiftedAt(ch, next, s, d, Shift(k, d));
  }

  /** Two shifts of the same source compose to one. */
  lemma ShiftsCompose(ch: Chapters, mid: Chapters, next: Chapters, s: nat, d: real, e: real)
    requires IsShift(ch, mid, s, d) && IsShift(mid, next, s, e)
    ensures IsShift(ch, next, s, d + e)
  {
    forall k: Key {:trigger ShiftedAt(ch, next, s, d + e, k)} ensures ShiftedAt(ch, next, s, d + e, k) {
      var m := Shift(k, 0.0 - e);
      assert Shift(m, 0.0 - d) == Shift(k, 0.0 - (d + e));
      assert ShiftedAt(ch, mid, s, d, m);
      assert ShiftedAt(ch, mid, s, d, k);
      assert ShiftedAt(mid, next, s, e, k);
    }
  }

  function Rows(ch: Chapters, s: nat): set<Key> {
    set k | k in ch && ch[k].source == Some(s)
  }

  function Numbers(ch: Chapters, s: nat): set<real> {
    set k | k in ch && ch[k].source == Some(s) :: k.number
  }

  // A stored reference to chapter `x`, after the chapters numbered `moving` move by `d`.
  function ShiftRef(x: real, moving: set<real>, d: real): real {
    if x in moving then x + d else x
  }

  function ShiftMark(x: Option<real>, moving: set<real>, d: real): Option<real> {
    if x.None? then None else Some(ShiftRef(x.value, moving, d))
  }

  function ShiftBookmarks(marks: map<nat, Bookmark>, novel: nat, moving: set<real>, d: real): map<nat, Bookmark> {
    map b | b in marks :: if marks[b].novel == novel then
      marks[b].(chapter := ShiftRef(marks[b].chapter, moving, d)) else marks[b]
  }

  function ShiftProgress(progress: map<(nat, nat), Progress>, novel: nat, moving: set<real>, d: real)
      : map<(nat, nat), Progress> {
    map p | p in progress :: if p.1 == novel then
      Progress(ShiftMark(progress[p].last, moving, d), ShiftMark(progress[p].maxRead, moving, d)) else progress[p]
  }

  predicate Covers(a: Artifact, novel: nat, numbers: set<real>) {
    a.novel == novel && exists x | x in numbers :: a.start <= x <= a.through
  }

  predicate HasArtifacts(artifacts: set<Artifact>, novel: nat, numbers: set<real>) {
    exists a | a in artifacts :: Covers(a, novel, numbers)
  }

  // No codex artifact of the novel covers the number of a chapter of the source.
  ghost predicate Uncovered(ch: Chapters, s: nat, novel: nat, artifacts: set<Artifact>) {
    forall a, k | a in artifacts && k in ch ::
      a.novel == novel && ch[k].source == Some(s) ==> k.number < a.start || a.through < k.number
  }

  lemma ArtifactsCover(ch: Chapters, s: nat, novel: nat, artifacts: set<Artifact>)
    ensures HasArtifacts(artifacts, novel, Numbers(ch, s)) <==> !Uncovered(ch, s, novel, artifacts)
  {
    if a :| a in artifacts && Covers(a, novel, Numbers(ch, s)) {
      var x :| x in Numbers(ch, s) && a.start <= x <= a.through;
    } else if !Uncovered(ch, s, novel, artifacts) {
      var a, k :| a in artifacts && k in ch && a.novel == novel && ch[k].source == Some(s)
        && a.start <= k.number <= a.through;
      assert k.number in Numbers(ch, s);
      assert Covers(a, novel, Numbers(ch, s));
    }
  }

  // All chapters of `s` stand in `src`'s novel, each at its local number plus the offset.
  ghost predicate AlignedTo(ch: Chapters, s: nat, src: Source) {
    forall k: Key {:trigger Of(ch, s, k)} :: Of(ch, s, k) ==>
      k.novel == src.novel && k.number == ch[k].local + src.offset
  }

  // A reference to chapter `x` of a novel became `y`: if it named a chapter, it names the same one now, and if it
  // named none, it was not touched.
  ghost predicate Follows(ch: Chapters, next: Chapters, novel: nat, x: real, y: real) {
    if Key(novel, x) in ch then Key(novel, y) in next && next[Key(novel, y)] == ch[Key(novel, x)] else y == x
  }

  ghost predicate MarkFollows(ch: Chapters, next: Chapters, novel: nat, x: Option<real>, y: Option<real>) {
    x.Some? == y.Some? && (x.Some? ==> Follows(ch, next, novel, x.value, y.value))
  }

  ghost predicate BookmarksFollow(ch: Chapters, next: Chapters, was: map<nat, Bookmark>, now: map<nat, Bookmark>) {
    && now.Keys == was.Keys
    && forall b | b in now :: (
      && now[b].user == was[b].user && now[b].novel == was[b].novel
      && Follows(ch, next, was[b].novel, was[b].chapter, now[b].chapter))
  }

  ghost predicate ProgressFollows(ch: Chapters, next: Chapters, was: map<(nat, nat), Progress>,
      now: map<(nat, nat), Progress>) {
    && now.Keys == was.Keys
    && forall p | p in now :: (
      && MarkFollows(ch, next, p.1, was[p].last, now[p].last)
      && MarkFollows(ch, next, p.1, was[p].maxRead, now[p].maxRead))
  }

  // The novel's chapter numbers lie within a million of the source's, before and after the move.
  ghost predicate Compact(ch: Chapters, s: nat, d: real) {
    forall k: Key, m: Key {:trigger Of(ch, s, k), m in ch} ::
      Of(ch, s, k) && m in ch && m.novel == k.novel ==>
        m.number < k.number + DETOUR && m.number < k.number + d + DETOUR
  }

  // No narration audio is attached to a chapter of the source.
  ghost predicate NoAudio(ch: Chapters, s: nat, audio: set<Key>) {
    forall k: Key {:trigger Of(ch, s, k)} :: Of(ch, s, k) ==> k !in audio
  }

  // No two chapters of the source are a million, or the detour's first leg, apart. Otherwise the outcome depends on
  // the order in which the statement visits the rows.
  ghost predicate Spread(ch: Chapters, s: nat, d: real) {
    OwnFree(ch, s, d + DETOUR) && OwnFree(ch, s, DETOUR)
  }

  // Other sources' chapters are out of the way of both legs, and no narration is attached.
  ghost predicate Passable(ch: Chapters, s: nat, d: real, audio: set<Key>) {
    d == 0.0 || (ForeignFree(ch, s, d) && ForeignFree(ch, s, d + DETOUR) && NoAudio(ch, s, audio))
  }

  // Every chapter of the source with audio has others of the source where each leg takes them onto its number.
  ghost predicate AudioCovered(ch: Chapters, s: nat, d: real, audio: set<Key>) {
    forall k: Key {:trigger k in audio} :: k in audio && Of(ch, s, k) ==>
      Of(ch, s, Shift(k, 0.0 - (d + DETOUR))) && Of(ch, s, Shift(k, 0.0 - d))
  }

  // Whether a move succeeds: exactly if it is passable, provided that the source's chapters are spread
  ghost predicate Decided(ch: Chapters, s: nat, d: real, audio: set<Key>, ok: bool) {
    Spread(ch, s, d) ==> (ok <==> Passable(ch, s, d, audio))
  }

  // What a nonzero move that succeeds has found, whatever the numbers are
  ghost predicate Passed(ch: Chapters, s: nat, d: real, audio: set<Key>) {
    ForeignFree(ch, s, d) && ForeignFree(ch, s, d + DETOUR) && AudioCovered(ch, s, d, audio)
  }

  // One row arrives.
  lemma MoveOne(ch: Chapters, was: Chapters, moved: set<Key>, d: real, k: Key)
    requires Partial(ch, was, moved, d) && k in ch && k !in moved && moved <= ch.Keys
    requires Shift(k, d) in was ==> Shift(k, d) == k
    requires Shift(k, 0.0 - d) !in moved
    ensures k in was && was[k] == ch[k]
    ensures Partial(ch, (was - {k})[Shift(k, d) := was[k]], moved + {k}, d)
  {
    assert PartialAt(ch, was, moved, d, k);
    var next := (was - {k})[Shift(k, d) := was[k]];
    forall m: Key ensures PartialAt(ch, next, moved + {k}, d, m) {
      ShiftBack(m, d);
      ShiftBack(k, d);
      assert PartialAt(ch, was, moved, d, m);
      assert m == Shift(k, d) <==> Shift(m, 0.0 - d) == k;
    }
  }

  lemma MoveKeepsCount(was: Chapters, k: Key, target: Key)
    requires k in was && (target in was ==> target == k)
    ensures |(was - {k})[target := was[k]]| == |was|
  {}

  lemma MoveKeepsRows(was: Chapters, s: nat, k: Key, target: Key)
    requires Of(was, s, k) && (target in was ==> target == k)
    ensures |Rows((was - {k})[target := was[k]], s)| == |Rows(was, s)|
  {
    var next := (was - {k})[target := was[k]];
    assert Rows(next, s) == (Rows(was, s) - {k}) + {target};
  }

  // With every row of the source moved, the partial shift is the shift.
  lemma Done(ch: Chapters, next: Chapters, moved: set<Key>, s: nat, d: real)
    requires Partial(ch, next, moved, d) && moved == Rows(ch, s)
    ensures IsShift(ch, next, s, d)
  {
    forall k: Key ensures ShiftedAt(ch, next, s, d, k) {
      assert PartialAt(ch, next, moved, d, k);
    }
  }

  lemma NoMove(ch: Chapters, s: nat)
    ensures IsShift(ch, ch, s, 0.0)
  {}

  // The upward leg passes the audio key exactly when no audio is attached to the source's chapters.
  lemma UpwardKeepsAudio(ch: Chapters, mid: Chapters, s: nat, d: real, audio: set<Key>)
    requires Spread(ch, s, d) && IsShift(ch, mid, s, d + DETOUR) && audio <= ch.Keys
    ensures audio <= mid.Keys <==> NoAudio(ch, s, audio)
  {
    forall k | k in ch ensures k in mid <==> !Of(ch, s, k) {
      assert ShiftedAt(ch, mid, s, d + DETOUR, k);
      ShiftBack(k, d + DETOUR);
    }
  }

  // Halfway, the source's chapters stand a million above their targets and everything else where it was.
  lemma Halfway(ch: Chapters, mid: Chapters, s: nat, d: real, k: Key)
    requires IsShift(ch, mid, s, d + DETOUR) && Of(ch, s, k)
    ensures Of(mid, s, Shift(k, d + DETOUR)) && Shift(Shift(k, d + DETOUR), 0.0 - DETOUR) == Shift(k, d)
    ensures Shift(k, d) in ch && !Of(ch, s, Shift(k, d)) ==> Shift(k, d) in mid && !Of(mid, s, Shift(k, d))
    ensures Shift(k, d) in mid && !Of(mid, s, Shift(k, d)) ==> Shift(k, d) in ch && !Of(ch, s, Shift(k, d))
    ensures Of(mid, s, Shift(k, d)) <==> Of(ch, s, Shift(k, 0.0 - DETOUR))
  {
    var t := Shift(k, d);
    ShiftedRows(ch, mid, s, d + DETOUR, k);
    ShiftedRows(ch, mid, s, d + DETOUR, t);
    assert ShiftedAt(ch, mid, s, d + DETOUR, t);
    assert Shift(t, 0.0 - (d + DETOUR)) == Shift(k, 0.0 - DETOUR);
  }

  // A chapter of the source, halfway, and the one it came from
  lemma FromHalfway(ch: Chapters, mid: Chapters, s: nat, d: real, m: Key)
    requires IsShift(ch, mid, s, d + DETOUR) && Of(mid, s, m)
    ensures var o := Shift(m, 0.0 - (d + DETOUR)); Of(ch, s, o) && Shift(o, d) == Shift(m, 0.0 - DETOUR)
  {
    ShiftedRows(ch, mid, s, d + DETOUR, m);
  }

  // The downward leg gets through only if no other source's chapter stands at a final number.
  lemma DownwardNeedsFree(ch: Chapters, mid: Chapters, s: nat, d: real)
    requires IsShift(ch, mid, s, d + DETOUR) && ForeignFree(mid, s, 0.0 - DETOUR)
    ensures ForeignFree(ch, s, d)
  {
    forall k | Of(ch, s, k) && Shift(k, d) in ch ensures Of(ch, s, Shift(k, d)) {
      Halfway(ch, mid, s, d, k);
    }
  }

  // And if so, then it does.
  lemma Downward(ch: Chapters, mid: Chapters, s: nat, d: real)
    requires Spread(ch, s, d) && IsShift(ch, mid, s, d + DETOUR)
    ensures OwnFree(mid, s, 0.0 - DETOUR)
    ensures ForeignFree(mid, s, 0.0 - DETOUR) <==> ForeignFree(ch, s, d)
  {
    forall m | Of(mid, s, m)
      ensures !Of(mid, s, Shift(m, 0.0 - DETOUR))
      ensures ForeignFree(ch, s, d) ==> Shift(m, 0.0 - DETOUR) !in mid
    {
      var o := Shift(m, 0.0 - (d + DETOUR));
      FromHalfway(ch, mid, s, d, m);
      Halfway(ch, mid, s, d, o);
      ShiftBack(o, DETOUR);
    }
    if ForeignFree(mid, s, 0.0 - DETOUR) {
      DownwardNeedsFree(ch, mid, s, d);
    }
  }

  // Both legs passing the audio key, whatever the numbers are
  lemma AudioNeedsCover(ch: Chapters, mid: Chapters, next: Chapters, s: nat, d: real, audio: set<Key>)
    requires IsShift(ch, mid, s, d + DETOUR) && IsShift(ch, next, s, d)
    requires audio <= mid.Keys && audio <= next.Keys
    ensures AudioCovered(ch, s, d, audio)
  {
    forall k | Of(ch, s, k) && k in audio
      ensures Of(ch, s, Shift(k, 0.0 - (d + DETOUR))) && Of(ch, s, Shift(k, 0.0 - d))
    {
      assert k in mid && k in next;
      assert ShiftedAt(ch, mid, s, d + DETOUR, k);
      assert ShiftedAt(ch, next, s, d, k);
    }
  }

  /**
   For a novel whose numbers lie within a million of the source's, the detour is never what fails: a move is
   possible exactly if the final numbers are free of other sources' chapters and no narration is attached.
   */
  lemma CompactMoves(ch: Chapters, s: nat, d: real, audio: set<Key>)
    requires Compact(ch, s, d)
    ensures Spread(ch, s, d)
    ensures Passable(ch, s, d, audio) <==> d == 0.0 || (ForeignFree(ch, s, d) && NoAudio(ch, s, audio))
  {}

  // Both legs together are the move, and they leave the chapters that carry audio where they were.
  lemma Arrive(ch: Chapters, mid: Chapters, next: Chapters, s: nat, d: real, audio: set<Key>)
    requires IsShift(ch, mid, s, d + DETOUR) && IsShift(mid, next, s, 0.0 - DETOUR)
    ensures IsShift(ch, next, s, d)
    ensures audio <= ch.Keys && NoAudio(ch, s, audio) ==> audio <= next.Keys
  {
    assert (d + DETOUR) + (0.0 - DETOUR) == d;
    ShiftsCompose(ch, mid, next, s, d + DETOUR, 0.0 - DETOUR);
    if audio <= ch.Keys && NoAudio(ch, s, audio) {
      forall k | k in audio ensures k in next {
        assert ShiftedAt(ch, next, s, d, k);
      }
    }
  }

  // Within the source's novel, a number belongs to the source exactly when the chapter there does.
  lemma NumberOf(ch: Chapters, s: nat, src: Source, k: Key)
    requires AlignedTo(ch, s, src) && k.novel == src.novel
    ensures k.number in Numbers(ch, s) <==> Of(ch, s, k)
  {
    if k.number in Numbers(ch, s) {
      var m :| m in ch && ch[m].source == Some(s) && m.number == k.number;
      assert Of(ch, s, m);
    }
  }

  // The move carries the references: those to moved chapters by the same amount, all others not at all.
  lemma ReferenceFollows(ch: Chapters, next: Chapters, s: nat, src: Source, d: real, novel: nat, x: real)
    requires AlignedTo(ch, s, src) && IsShift(ch, next, s, d)
    ensures Follows(ch, next, novel, x, if novel == src.novel then ShiftRef(x, Numbers(ch, s), d) else x)
  {
    var k := Key(novel, x);
    ShiftBack(k, d);
    assert ShiftedAt(ch, next, s, d, k);
    assert ShiftedAt(ch, next, s, d, Shift(k, d));
    if novel == src.novel {
      NumberOf(ch, s, src, k);
    }
  }

  lemma ReferencesFollow(ch: Chapters, next: Chapters, s: nat, src: Source, d: real, marks: map<nat, Bookmark>,
      progress: map<(nat, nat), Progress>)
    requires AlignedTo(ch, s, src) && IsShift(ch, next, s, d)
    ensures BookmarksFollow(ch, next, marks, ShiftBookmarks(marks, src.novel, Numbers(ch, s), d))
    ensures ProgressFollows(ch, next, progress, ShiftProgress(progress, src.novel, Numbers(ch, s), d))
  {
    forall b | b in marks {
      ReferenceFollows(ch, next, s, src, d, marks[b].novel, marks[b].chapter);
    }
    forall p | p in progress
      ensures progress[p].last.Some? ==> Follows(ch, next, p.1, progress[p].last.value,
        if p.1 == src.novel then ShiftRef(progress[p].last.value, Numbers(ch, s), d) else progress[p].last.value)
      ensures progress[p].maxRead.Some? ==> Follows(ch, next, p.1, progress[p].maxRead.value,
        if p.1 == src.novel then ShiftRef(progress[p].maxRead.value, Numbers(ch, s), d) else progress[p].maxRead.value)
    {
      if progress[p].last.Some? {
        ReferenceFollows(ch, next, s, src, d, p.1, progress[p].last.value);
      }
      if progress[p].maxRead.Some? {
        ReferenceFollows(ch, next, s, src, d, p.1, progress[p].maxRead.value);
      }
    }
  }

  // A source that stood at its local numbers plus its offset stands so at the new offset; other sources do not move.
  lemma ShiftRealigns(ch: Chapters, next: Chapters, s: nat, src: Source, d: real, t: nat, other: Source)
    requires IsShift(ch, next, s, d) && AlignedTo(ch, s, src)
    requires t != s ==> AlignedTo(ch, t, other)
    ensures AlignedTo(next, s, src.(offset := src.offset + d))
    ensures t != s ==> AlignedTo(next, t, other)
  {
    forall k | Of(next, s, k) ensures k.novel == src.novel && k.number == next[k].local + src.offset + d {
      ShiftedRows(ch, next, s, d, k);
      assert ShiftedAt(ch, next, s, d, k);
    }
    forall k | t != s && Of(next, t, k) ensures k.novel == other.novel && k.number == next[k].local + other.offset {
      assert ShiftedAt(ch, next, s, d, k);
      assert Of(ch, t, k);
    }
  }

  ghost predicate AllAligned(ch: Chapters, sources: map<nat, Source>) {
    forall s: nat {:trigger s in sources} :: s in sources ==> AlignedTo(ch, s, sources[s])
  }

  lemma AllRealigned(ch: Chapters, next: Chapters, s: nat, newOffset: real, sources: map<nat, Source>)
    requires s in sources && IsShift(ch, next, s, newOffset - sources[s].offset) && AllAligned(ch, sources)
    ensures AllAligned(next, sources[s := sources[s].(offset := newOffset)])
  {
    var d := newOffset - sources[s].offset;
    forall t: nat | t in sources ensures t != s ==> AlignedTo(next, t, sources[t]) {
      ShiftRealigns(ch, next, s, sources[s], d, t, sources[t]);
    }
    ShiftRealigns(ch, next, s, sources[s], d, s, sources[s]);
    assert sources[s].offset + d == newOffset;
  }

  /**
   Moving a source to one offset and then to another leaves its chapters, and every reference that named one,
   where moving straight to the second offset would have.
   */
  lemma TwoMovesAreOne(ch: Chapters, mid: Chapters, next: Chapters, direct: Chapters, s: nat, src: Source,
      first: real, second: real, k: Key)
    requires AlignedTo(ch, s, src) && k in ch && k.novel == src.novel
    requires IsShift(ch, mid, s, first - src.offset) && IsShift(mid, next, s, second - first)
    requires IsShift(ch, direct, s, second - src.offset)
    ensures next == direct
    ensures ShiftRef(ShiftRef(k.number, Numbers(ch, s), first - src.offset), Numbers(mid, s), second - first)
      == ShiftRef(k.number, Numbers(ch, s), second - src.offset)
  {
    var d, e := first - src.offset, second - first;
    assert d + e == second - src.offset;
    ShiftsCompose(ch, mid, next, s, d, e);
    ShiftIsUnique(ch, next, direct, s, d + e);
    ShiftRealigns(ch, mid, s, src, d, s, src);
    ShiftedRows(ch, mid, s, d, k);
    NumberOf(ch, s, src, k);
    var at := src.(offset := src.offset + d);
    NumberOf(mid, s, at, Shift(k, d));
    NumberOf(mid, s, at, k);
    assert ShiftedAt(ch, mid, s, d, k);
  }

  /**
   Chapter overlays are stored by chapter number and the move leaves them alone. An overlay stays with its
   chapter exactly when the offset did not change or its chapter is of another source.
   */
  lemma OverlayStays(ch: Chapters, next: Chapters, s: nat, src: Source, d: real, k: Key)
    requires AlignedTo(ch, s, src) && IsShift(ch, next, s, d) && k in ch
    ensures StillThere(ch, next, k) <==> d == 0.0 || !Of(ch, s, k)
  {
    assert ShiftedAt(ch, next, s, d, k);
    var back := Shift(k, 0.0 - d);
    assert d == 0.0 ==> back == k;
    assert d != 0.0 && Of(ch, s, k) && Of(ch, s, back) ==> ch[back].local != ch[k].local;
  }

  predicate StillThere(ch: Chapters, next: Chapters, k: Key)
    requires k in ch
  {
    k in next && next[k] == ch[k]
  }

  // The overlays that are still on their chapter are those of other sources' chapters.
  ghost predicate OverlaysSplit(ch: Chapters, next: Chapters, s: nat, d: real, overlays: map<(nat, Key), string>) {
    forall o | o in overlays && o.1 in ch :: StillThere(ch, next, o.1) <==> d == 0.0 || !Of(ch, s, o.1)
  }

  lemma OverlaysAreSplit(ch: Chapters, next: Chapters, s: nat, src: Source, d: real, overlays: map<(nat, Key), string>)
    requires AlignedTo(ch, s, src) && IsShift(ch, next, s, d)
    ensures OverlaysSplit(ch, next, s, d, overlays)
  {
    forall o | o in overlays && o.1 in ch ensures StillThere(ch, next, o.1) <==> d == 0.0 || !Of(ch, s, o.1) {
      OverlayStays(ch, next, s, src, d, o.1);
    }
  }

  // One chapter of source 7, and one of source 8 just over a million above it
  function FarApart(): Chapters {
    map[Key(0, 1.0) := Chapter(Some(7), 1.0, 0), Key(0, 1000003.0) := Chapter(Some(8), 3.0, 0)]
  }

  /** Free final numbers are not enough: here the upward leg collides, so that the move fails. */
  lemma DetourCollidesExample()
    ensures ForeignFree(FarApart(), 7, 2.0) && NoAudio(FarApart(), 7, {})
    ensures Spread(FarApart(), 7, 2.0) && !Passable(FarApart(), 7, 2.0, {})
  {
    var ch, low, high := FarApart(), Key(0, 1.0), Key(0, 1000003.0);
    assert Of(ch, 7, low) && Shift(low, 2.0 + DETOUR) == high && !Of(ch, 7, high);
    assert forall k | Of(ch, 7, k) :: k == low;
  }

  datatype Failure = NoSource | CodexBuilt | DuplicateKey | StillReferenced

  class Library {
    var chapters: Chapters
    var sources: map<nat, Source>
    var bookmarks: map<nat, Bookmark>
    var progress: map<(nat, nat), Progress>
    const artifacts: set<Artifact>
    const audio: set<Key>
    const overlays: map<(nat, Key), string>

    // Every chapter with a source is aligned to it, and audio is only attached to stored chapters.
    ghost predicate Valid()
      reads this
    {
      && AllAligned(chapters, sources)
      && audio <= chapters.Keys
    }

    constructor (chapters: Chapters, sources: map<nat, Source>, bookmarks: map<nat, Bookmark>,
        progress: map<(nat, nat), Progress>, artifacts: set<Artifact>, audio: set<Key>,
        overlays: map<(nat, Key), string>)
      ensures this.chapters == chapters && this.sources == sources && this.bookmarks == bookmarks
      ensures this.progress == progress && this.artifacts == artifacts
      ensures this.audio == audio && this.overlays == overlays
    {
      this.chapters, this.sources, this.bookmarks, this.progress := chapters, sources, bookmarks, progress;
      this.artifacts, this.audio, this.overlays := artifacts, audio, overlays;
    }

    /**
     `UPDATE chapters SET number = number + d WHERE source_id = s`, visiting the rows in any order. It succeeds
     whenever no target is taken, and fails whenever a chapter of another source is in the way.
     */
    method ShiftNumbers(s: nat, d: real) returns (ok: bool, count: nat)
      modifies `chapters
      ensures ok ==> IsShift(old(chapters), chapters, s, d) && |chapters| == |old(chapters)|
      ensures ok ==> ForeignFree(old(chapters), s, d) && count == |Rows(old(chapters), s)| == |Rows(chapters, s)|
      ensures ForeignFree(old(chapters), s, d) && (d == 0.0 || OwnFree(old(chapters), s, d)) ==> ok
    {
      ghost var ch := chapters;
      var pending := Rows(chapters, s);
      ghost var moved: set<Key> := {};
      count := |pending|;
      while pending != {}
        invariant pending !! moved && pending + moved == Rows(ch, s)
        invariant |chapters| == |ch| && |Rows(chapters, s)| == |Rows(ch, s)|
        invariant Partial(ch, chapters, moved, d)
        invariant forall k | k in moved && Shift(k, d) in ch :: Shift(k, d) in moved
      {
        var k :| k in pending;
        var target := Shift(k, d);
        ShiftBack(k, d);
        ShiftBack(k, 0.0 - d);
        assert PartialAt(ch, chapters, moved, d, k);
        assert PartialAt(ch, chapters, moved, d, target);
        if target in chapters && target != k {
          assert Of(ch, s, k);
          return false, 0;
        }
        MoveOne(ch, chapters, moved, d, k);
        MoveKeepsCount(chapters, k, target);
        MoveKeepsRows(chapters, s, k, target);
        chapters := (chapters - {k})[target := chapters[k]];
        pending, moved := pending - {k}, moved + {k};
      }
      ok := true;
      Done(ch, chapters, moved, s, d);
    }

    /**
     `renumber_source_chapters`: bookmarks and reading positions first, then the chapters by way of the detour.
     The audio rows' foreign key is checked after each statement.
     */
    method Renumber(s: nat, src: Source, d: real) returns (r: Result<nat, Failure>)
      requires AlignedTo(chapters, s, src) && audio <= chapters.Keys
      modifies `chapters, `bookmarks, `progress
      ensures r.Ok? ==> IsShift(old(chapters), chapters, s, d) && |chapters| == |old(chapters)|
      ensures r.Ok? ==> audio <= chapters.Keys && r.value == if d == 0.0 then 0 else |Rows(old(chapters), s)|
      ensures r.Ok? ==> BookmarksFollow(old(chapters), chapters, old(bookmarks), bookmarks)
      ensures r.Ok? ==> ProgressFollows(old(chapters), chapters, old(progress), progress)
      ensures r.Ok? && d != 0.0 ==> Passed(old(chapters), s, d, audio)
      ensures Decided(old(chapters), s, d, audio, r.Ok?)
      ensures r.Err? && Spread(old(chapters), s, d) ==>
        var inTheWay := !ForeignFree(old(chapters), s, d + DETOUR) || NoAudio(old(chapters), s, audio);
        r.error == if inTheWay then DuplicateKey else StillReferenced
      ensures r.Err? ==> r.error == StillReferenced || r.error == DuplicateKey
    {
      if d == 0.0 {
        NoMove(chapters, s);
        return Ok(0);
      }
      ghost var ch := chapters;
      var moving := Numbers(chapters, s);
      bookmarks := ShiftBookmarks(bookmarks, src.novel, moving, d);
      progress := ShiftProgress(progress, src.novel, moving, d);
      var ok, _ := ShiftNumbers(s, d + DETOUR);
      if !ok {
        return Err(DuplicateKey);
      }
      ghost var mid := chapters;
      if Spread(ch, s, d) {
        UpwardKeepsAudio(ch, mid, s, d, audio);
        Downward(ch, mid, s, d);
      }
      if !(audio <= chapters.Keys) {
        return Err(StillReferenced);
      }
      var count;
      ok, count := ShiftNumbers(s, 0.0 - DETOUR);
      if !ok {
        return Err(DuplicateKey);
      }
      Arrive(ch, mid, chapters, s, d, audio);
      if !(audio <= chapters.Keys) {
        return Err(StillReferenced);
      }
      DownwardNeedsFree(ch, mid, s, d);
      AudioNeedsCover(ch, mid, chapters, s, d, audio);
      r := Ok(count);
      ReferencesFollow(ch, chapters, s, src, d, old(bookmarks), old(progress));
    }

    // The transaction after the look for artifacts: all of it, or nothing.
    method MoveOrUndo(s: nat, newOffset: real) returns (r: Result<nat, Failure>)
      requires Valid() && s in sources
      modifies this
      ensures Valid()
      ensures r.Err? ==> chapters == old(chapters) && sources == old(sources)
      ensures r.Err? ==> bookmarks == old(bookmarks) && progress == old(progress)
      ensures r.Err? ==> r.error == StillReferenced || r.error == DuplicateKey
      ensures r.Ok? ==> sources == old(sources)[s := old(sources)[s].(offset := newOffset)]
      ensures r.Ok? ==>
        var d := newOffset - old(sources)[s].offset;
        && IsShift(old(chapters), chapters, s, d) && |chapters| == |old(chapters)|
        && (d != 0.0 ==> Passed(old(chapters), s, d, audio))
        && OverlaysSplit(old(chapters), chapters, s, d, overlays)
        && BookmarksFollow(old(chapters), chapters, old(bookmarks), bookmarks)
        && ProgressFollows(old(chapters), chapters, old(progress), progress)
      ensures Decided(old(chapters), s, newOffset - old(sources)[s].offset, audio, r.Ok?)
    {
      var src := sources[s];
      var d := newOffset - src.offset;
      ghost var ch := chapters;
      var chaptersBefore, bookmarksBefore, progressBefore := chapters, bookmarks, progress;
      r := Renumber(s, src, d);
      if r.Err? {
        chapters, bookmarks, progress := chaptersBefore, bookmarksBefore, progressBefore;
        return;
      }
      AllRealigned(ch, chapters, s, newOffset, sources);
      OverlaysAreSplit(ch, chapters, s, src, d, overlays);
      sources := sources[s := src.(offset := newOffset)];
    }

    /**
     `update_source_offset`. On success the source's chapters have moved by the difference of the offsets, each
     still stands at its local number plus the offset, the keys stayed unique, and every bookmark and reading
     position that named a chapter names the same chapter; overlays stay at their numbers. A nonzero move never
     succeeds over codex artifacts, and a failure changes nothing. Unless chapters of the source are a million
     apart, it succeeds exactly when the offset is unchanged, or no artifact, no audio and no other source's
     chapter is in the way of either leg.
     */
    method UpdateSourceOffset(s: nat, newOffset: real) returns (r: Result<nat, Failure>)
      requires Valid()
      modifies this
      ensures Valid()
      ensures r.Err? ==> chapters == old(chapters) && sources == old(sources)
      ensures r.Err? ==> bookmarks == old(bookmarks) && progress == old(progress)
      ensures r.Ok? ==> s in old(sources) && sources == old(sources)[s := old(sources)[s].(offset := newOffset)]
      ensures r.Ok? ==>
        var d := newOffset - old(sources)[s].offset;
        && IsShift(old(chapters), chapters, s, d) && |chapters| == |old(chapters)|
        && (d != 0.0 ==>
              Passed(old(chapters), s, d, audio) && Uncovered(old(chapters), s, old(sources)[s].novel, artifacts))
        && OverlaysSplit(old(chapters), chapters, s, d, overlays)
        && BookmarksFollow(old(chapters), chapters, old(bookmarks), bookmarks)
        && ProgressFollows(old(chapters), chapters, old(progress), progress)
      ensures s !in old(sources) ==> r == Err(NoSource)
      ensures s in old(sources) ==>
        var d := newOffset - old(sources)[s].offset;
        if d == 0.0 || Uncovered(old(chapters), s, old(sources)[s].novel, artifacts)
          then Decided(old(chapters), s, d, audio, r.Ok?) else r.Err?
      ensures s in old(sources) ==>
        (r == Err(CodexBuilt) <==>
          newOffset != old(sources)[s].offset && !Uncovered(old(chapters), s, old(sources)[s].novel, artifacts))
    {
      if s !in sources {
        return Err(NoSource);
      }
      var src := sources[s];
      var d := newOffset - src.offset;
      ArtifactsCover(chapters, s, src.novel, artifacts);
      if d != 0.0 && HasArtifacts(artifacts, src.novel, Numbers(chapters, s)) {
        return Err(CodexBuilt);
      }
      r := MoveOrUndo(s, newOffset);
    }
  }
}
