/**
 Optimistic commits: a translation or a codex extraction is prepared from one version of a chapter, minutes
 later it is committed in one transaction, and in between anybody may edit, re-ingest or re-stage the chapter.
 The hash is uninterpreted.
 */
module StaleCommit {
  import opened Prelude
  import opened JobRows
  import opened QuotaLedger
  import Text

  type Version = v: nat | 1 <= v witness 1

  datatype Stage = Untouched | Awaiting | Translating | Translated | Unsuccessful

  datatype Chapter = Chapter(title: Option<string>, original: Option<string>, content: Option<string>,
    version: Version, stage: Stage, run: Option<nat>, hash: Option<nat>)

  datatype Overlay = Overlay(content: string, base: Version, conflict: bool)

  datatype Extraction = Extraction(run: Option<nat>, hash: nat, pipeline: nat)

  datatype Library = Library(chapters: map<Key, Chapter>, overlays: map<(nat, Key), Overlay>,
    glossary: map<(nat, string), string>, extracted: map<Key, Extraction>, work: Db)

  datatype Term = Term(source: string, translation: string)

  // A prepared translation: `hash` and `version` are those of the chapter it was made from.
  datatype Commit = Commit(at: Key, hash: nat, version: Version, title: Option<string>, text: string,
    terms: seq<Term>, run: Option<nat>, job: Option<nat>, now: int)

  // `wellFormed` and `grounded` are the codex's own checks, before and after the look for an earlier extraction.
  datatype Proposal = Proposal(at: Key, hash: nat, run: Option<nat>, pipeline: nat, force: bool,
    wellFormed: bool, grounded: bool)

  datatype Verdict = Landed | Replayed | Refused

  function OrEmpty(s: Option<string>): string {
    if s.None? then "" else s.value
  }

  predicate Blank(s: Option<string>) {
    OrEmpty(s) == ""
  }

  // ----- the pieces of a translation commit ----------------------------------------------------------

  // `ON CONFLICT DO NOTHING`
  function InsertTerm(g: map<(nat, string), string>, novel: nat, t: Term): map<(nat, string), string> {
    var key := (novel, Text.Strip(t.source));
    if key in g then g else g[key := Text.Strip(t.translation)]
  }

  function InsertTerms(g: map<(nat, string), string>, novel: nat, ts: seq<Term>): map<(nat, string), string> {
    if ts == [] then g
    else InsertTerm(InsertTerms(g, novel, ts[..|ts| - 1]), novel, ts[|ts| - 1])
  }

  // The first of `ts` for a source term is `i`.
  ghost predicate FirstFor(ts: seq<Term>, source: string, i: nat) {
    && i < |ts| && Text.Strip(ts[i].source) == source
    && forall j | 0 <= j < i :: Text.Strip(ts[j].source) != source
  }

  /** Established renderings stay; a new source term gets the first rendering offered for it. */
  lemma {:induction false} FirstRenderingWins(g: map<(nat, string), string>, novel: nat, ts: seq<Term>,
      key: (nat, string), i: nat)
    ensures key in g ==> key in InsertTerms(g, novel, ts) && InsertTerms(g, novel, ts)[key] == g[key]
    ensures key !in g && key.0 == novel && FirstFor(ts, key.1, i) ==>
      key in InsertTerms(g, novel, ts) && InsertTerms(g, novel, ts)[key] == Text.Strip(ts[i].translation)
    ensures key !in g && (key.0 != novel || forall t | t in ts :: Text.Strip(t.source) != key.1) ==>
      key !in InsertTerms(g, novel, ts)
  {
    if ts != [] {
      var front := ts[..|ts| - 1];
      FirstRenderingWins(g, novel, front, key, i);
      if i < |front| {
        assert FirstFor(ts, key.1, i) ==> FirstFor(front, key.1, i);
      } else if FirstFor(ts, key.1, i) {
        assert forall t | t in front :: Text.Strip(t.source) != key.1;
      }
    }
  }

  // Overlays written against an older version of `k` are marked as conflicting.
  function FlagBehind(overlays: map<(nat, Key), Overlay>, k: Key, version: nat): map<(nat, Key), Overlay> {
    map o | o in overlays :: if o.1 == k && overlays[o].base < version
      then overlays[o].(conflict := true) else overlays[o]
  }

  predicate IsReplay(ch: Chapter, c: Commit) {
    c.run.Some? && ch.run == c.run && ch.stage.Translated? && ch.hash == Some(c.hash)
  }

  // The chapter is still the one the commit was prepared from, and staged by nobody else.
  predicate Unchanged(sha: string -> nat, ch: Chapter, c: Commit) {
    sha(OrEmpty(ch.original)) == c.hash && ch.version == c.version && ch.run == c.run
  }

  function Delivered(ch: Chapter, c: Commit): Chapter {
    var title := Text.Strip(OrEmpty(c.title));
    Chapter(if title == "" then ch.title else Some(title), ch.original, Some(Text.Strip(c.text)),
            ch.version + 1, Translated, c.run, Some(c.hash))
  }

  function Charged(work: Db, job: Option<nat>, now: int): Option<Db> {
    if job.None? then Some(work) else Increment(work, job.value, 1, now)
  }

  function Delivery(lib: Library, c: Commit, work: Db): Library
    requires c.at in lib.chapters
  {
    Library(lib.chapters[c.at := Delivered(lib.chapters[c.at], c)],
            FlagBehind(lib.overlays, c.at, lib.chapters[c.at].version + 1),
            InsertTerms(lib.glossary, c.at.novel, c.terms), lib.extracted, work)
  }

  /** `commit_translation` as one atomic step. */
  function ApplyCommit(sha: string -> nat, lib: Library, c: Commit): (Library, Verdict) {
    if c.at !in lib.chapters then (lib, Refused)
    else
      var ch := lib.chapters[c.at];
      var work := Charged(lib.work, c.job, c.now);
      if IsReplay(ch, c) then (lib, Replayed)
      else if !Unchanged(sha, ch, c) || work.None? then (lib, Refused)
      else (Delivery(lib, c, work.value), Landed)
  }

  /** `commit_codex_extraction` as one atomic step. */
  function ApplyProposal(sha: string -> nat, lib: Library, p: Proposal): (Library, Verdict) {
    if p.at !in lib.chapters || sha(OrEmpty(lib.chapters[p.at].content)) != p.hash || !p.wellFormed then (lib, Refused)
    else if p.at in lib.extracted && lib.extracted[p.at].pipeline == p.pipeline
            && p.run.Some? && lib.extracted[p.at].run == p.run && lib.extracted[p.at].hash == p.hash
          then (lib, Replayed)
    else if p.at in lib.extracted && lib.extracted[p.at].pipeline == p.pipeline && !p.force then (lib, Refused)
    else if !p.grounded then (lib, Refused)
    else (lib.(extracted := lib.extracted[p.at := Extraction(p.run, p.hash, p.pipeline)]), Landed)
  }

  // ----- everything else that touches a chapter ------------------------------------------------------

  datatype Event =
    | Translation(c: Commit)
    | Codex(p: Proposal)
    | StageBatch(keys: set<Key>, run: nat, force: bool)
    | ResetStaged(run: nat, stage: Stage)
    | MarkStarted(at: Key, hash: nat)
    | MarkFailed(at: Key, onlyUnowned: bool)
    | Edit(at: Key, text: string, keep: Option<nat>)
    | Ingest(at: Key, original: Option<string>, content: Option<string>, title: Option<string>, force: bool,
        minimum: Option<Version>)
    | Replace(at: Key, original: Option<string>, content: Option<string>, title: Option<string>)
    | Remove(at: Key)
    | Relocate(from: map<Key, Key>)
    | SaveOverlay(user: nat, at: Key, text: string, base: Version)
    | DropOverlay(user: nat, at: Key)
    | Reanchor(user: nat, at: Key, base: Version)
    | Finalize(id: nat, success: bool, now: int)
    | Advanced(id: nat, step: RowStep, now: int)

  function Staged(sha: string -> nat, ch: Chapter, run: nat, force: bool): Chapter {
    if Blank(ch.original) || (!Blank(ch.content) && !force) || ch.stage.Translating? then ch
    else ch.(stage := Translating, run := Some(run), hash := Some(sha(OrEmpty(ch.original))))
  }

  function AddedStage(original: Option<string>): Stage {
    if original.Some? then Awaiting else Untouched
  }

  // A row that is inserted takes the schema's version, one, whatever minimum the importer passes: the minimum
  // only takes part in the conflict clause.
  function FreshChapter(title: Option<string>, original: Option<string>, content: Option<string>): Chapter {
    Chapter(title, original, content, 1, AddedStage(original), None, None)
  }

  // A renumbering: the row that stands at `k` afterwards stood at `from[k]`, every row stands somewhere, none twice.
  predicate Rearranges(lib: Library, from: map<Key, Key>) {
    && (forall k | k in from :: from[k] in lib.chapters)
    && (forall k, m | k in from && m in from && from[k] == from[m] :: k == m)
    && (forall c | c in lib.chapters :: exists k | k in from :: from[k] == c)
  }

  // `upsert_ingested_chapter`. A forced re-ingest keeps the run and hash columns.
  function Ingested(lib: Library, e: Event): Library
    requires e.Ingest?
  {
    if e.at !in lib.chapters then
      lib.(chapters := lib.chapters[e.at := FreshChapter(e.title, e.original, e.content)])
    else if !e.force then lib
    else
      var ch := lib.chapters[e.at];
      var changed := ch.content != e.content || ch.original != e.original;
      var bumped: Version := if changed then ch.version + 1 else ch.version;
      var version := if e.minimum.Some? && e.minimum.value > bumped then e.minimum.value else bumped;
      lib.(chapters := lib.chapters[e.at := Chapter(e.title, e.original, e.content, version,
                                                    AddedStage(e.original), ch.run, ch.hash)],
           overlays := if changed || e.minimum.Some? then FlagBehind(lib.overlays, e.at, version) else lib.overlays)
  }

  // `update_base_content`, moving one user's overlay along when asked to
  function Edited(lib: Library, e: Event): Library
    requires e.Edit?
  {
    if e.at !in lib.chapters then lib
    else
      var ch := lib.chapters[e.at];
      var version := ch.version + 1;
      lib.(chapters := lib.chapters[e.at := ch.(content := Some(e.text), stage := Translated, version := version)],
           overlays := map o | o in lib.overlays ::
             if o.1 == e.at && e.keep == Some(o.0) then lib.overlays[o].(base := version, conflict := false)
             else FlagBehind(lib.overlays, e.at, version)[o])
  }

  function Next(sha: string -> nat, lib: Library, e: Event): Library {
    match e
    case Translation(c) => ApplyCommit(sha, lib, c).0
    case Codex(p) => ApplyProposal(sha, lib, p).0
    case StageBatch(keys, run, force) =>
      lib.(chapters := map k | k in lib.chapters ::
             if k in keys then Staged(sha, lib.chapters[k], run, force) else lib.chapters[k])
    case ResetStaged(run, stage) =>
      lib.(chapters := map k | k in lib.chapters ::
             if lib.chapters[k].run == Some(run) && lib.chapters[k].stage.Translating?
             then lib.chapters[k].(stage := stage, run := None) else lib.chapters[k])
    case MarkStarted(k, hash) =>
      if k !in lib.chapters then lib
      else lib.(chapters := lib.chapters[k := lib.chapters[k].(stage := Translating, run := None, hash := Some(hash))])
    case MarkFailed(k, onlyUnowned) =>
      if k !in lib.chapters ||
           (onlyUnowned && !(lib.chapters[k].run.None? && lib.chapters[k].stage.Translating?)) then lib
      else lib.(chapters := lib.chapters[k := lib.chapters[k].(stage := Unsuccessful)])
    case Edit(_, _, _) => Edited(lib, e)
    case Ingest(_, _, _, _, _, _) => Ingested(lib, e)
    case Replace(k, original, content, title) =>
      if k !in lib.chapters then lib
      else lib.(chapters := lib.chapters[k := FreshChapter(title, original, content)],
                overlays := map o | o in lib.overlays ::
                  if o.1 == k then lib.overlays[o].(conflict := true) else lib.overlays[o])
    case Remove(k) => lib.(chapters := lib.chapters - {k})
    case Relocate(from) =>
      if !Rearranges(lib, from) then lib else lib.(chapters := map k | k in from :: lib.chapters[from[k]])
    case SaveOverlay(user, k, text, base) => lib.(overlays := lib.overlays[(user, k) := Overlay(text, base, false)])
    case DropOverlay(user, k) => lib.(overlays := lib.overlays - {(user, k)})
    case Reanchor(user, k, base) =>
      if (user, k) !in lib.overlays then lib
      else lib.(overlays := lib.overlays[(user, k) := lib.overlays[(user, k)].(base := base, conflict := false)])
    case Finalize(id, success, now) => lib.(work := FinalizeJobQuota(lib.work, id, success, now).0)
    case Advanced(id, step, now) =>
      var w := AdvanceJob(lib.work, id, step, now);
      if w.None? then lib else lib.(work := w.value)
  }

  // The state after a run, most recent event last.
  function Run(sha: string -> nat, lib: Library, es: seq<Event>): Library {
    if es == [] then lib else Next(sha, Run(sha, lib, es[..|es| - 1]), es[|es| - 1])
  }

  predicate Lands(sha: string -> nat, lib: Library, e: Event) {
    e.Translation? && ApplyCommit(sha, lib, e.c).1.Landed?
  }

  // ----- one commit -----------------------------------------------------------------------------------

  // The row carries a finished translation of the commit's own run and source text.
  predicate FinishedBy(ch: Chapter, c: Commit) {
    c.run.Some? && ch.run == c.run && ch.stage == Translated && ch.hash == Some(c.hash)
  }

  /**
   A translation lands exactly when it repeats no finished run, its chapter still has the source text, the
   version and the staging run it was prepared from, and its job, if any, has an unspent unit. Otherwise
   nothing at all changes; and when it lands, no other chapter and no other job does.
   */
  lemma LandsIffFresh(sha: string -> nat, lib: Library, c: Commit)
    ensures var (next, v) := ApplyCommit(sha, lib, c);
      && (v.Landed? <==>
            && c.at in lib.chapters && !FinishedBy(lib.chapters[c.at], c)
            && sha(OrEmpty(lib.chapters[c.at].original)) == c.hash
            && lib.chapters[c.at].version == c.version && lib.chapters[c.at].run == c.run
            && (c.job.Some? ==>
                  && c.job.value < |lib.work.jobs| && !lib.work.jobs[c.job.value].finalized
                  && lib.work.jobs[c.job.value].consumed < lib.work.jobs[c.job.value].reserved))
      && (v.Replayed? <==> c.at in lib.chapters && FinishedBy(lib.chapters[c.at], c))
      && (!v.Landed? ==> next == lib)
      && (v.Landed? ==>
            && next.chapters.Keys == lib.chapters.Keys && next.extracted == lib.extracted
            && (forall k | k in lib.chapters && k != c.at :: next.chapters[k] == lib.chapters[k])
            && |next.work.jobs| == |lib.work.jobs|
            && (forall i | 0 <= i < |lib.work.jobs| :: next.work.jobs[i] ==
                  if c.job == Some(i) then
                    lib.work.jobs[i].(consumed := lib.work.jobs[i].consumed + 1, updatedAt := c.now)
                  else lib.work.jobs[i]))
  {}

  /**
   The chapter that a landed translation leaves: the source text as it was, the translation without the white
   space around it, the new title unless that is blank, one version later, done by the commit's run.
   */
  lemma LandedChapter(sha: string -> nat, lib: Library, c: Commit)
    requires ApplyCommit(sha, lib, c).1.Landed?
    ensures c.at in lib.chapters && c.at in ApplyCommit(sha, lib, c).0.chapters
    ensures Rewritten(lib.chapters[c.at], ApplyCommit(sha, lib, c).0.chapters[c.at], c)
  {}

  predicate Rewritten(was: Chapter, after: Chapter, c: Commit) {
    && after.original == was.original && after.content == Some(Text.Strip(c.text))
    && (if c.title.Some? && Text.Strip(c.title.value) != "" then after.title == Some(Text.Strip(c.title.value))
        else after.title == was.title)
    && after.version == was.version + 1 && after.stage == Translated && after.run == c.run && after.hash == Some(c.hash)
  }

  /**
   The glossary it leaves: every known rendering of every novel, for each new source term of the chapter's novel the
   first rendering the commit offers, and nothing else.
   */
  lemma LandedGlossary(sha: string -> nat, lib: Library, c: Commit, key: (nat, string), i: nat)
    requires ApplyCommit(sha, lib, c).1.Landed?
    ensures var g := ApplyCommit(sha, lib, c).0.glossary;
      && (key in lib.glossary ==> key in g && g[key] == lib.glossary[key])
      && (key !in lib.glossary && key.0 == c.at.novel && FirstFor(c.terms, key.1, i) ==>
            key in g && g[key] == Text.Strip(c.terms[i].translation))
      && (key !in lib.glossary && (key.0 != c.at.novel || forall t | t in c.terms :: Text.Strip(t.source) != key.1) ==>
            key !in g)
  {
    FirstRenderingWins(lib.glossary, c.at.novel, c.terms, key, i);
  }

  /** The overlays it leaves: all of them, those of this chapter that are behind it now marked as conflicting. */
  lemma LandedOverlays(sha: string -> nat, lib: Library, c: Commit, o: (nat, Key))
    requires ApplyCommit(sha, lib, c).1.Landed?
    ensures var overlays := ApplyCommit(sha, lib, c).0.overlays;
      && overlays.Keys == lib.overlays.Keys
      && (o in lib.overlays ==>
            overlays[o] ==
            if o.1 == c.at && lib.overlays[o].base <= c.version then lib.overlays[o].(conflict := true)
            else lib.overlays[o])
  {}

  /**
   Committing the same translation again changes nothing. A staged run is told that its work is done; an
   unstaged commit is refused.
   */
  lemma CommittedOnce(sha: string -> nat, lib: Library, c: Commit)
    requires ApplyCommit(sha, lib, c).1.Landed?
    ensures var next := ApplyCommit(sha, lib, c).0;
      ApplyCommit(sha, next, c) == (next, if c.run.Some? then Replayed else Refused)
  {}

  /**
   A codex extraction lands exactly when the chapter still has the content it was made from, it is well formed and
   grounded, and this pipeline has not extracted the chapter before, or is forced to. The same run coming back with
   the same content is told that its work is done. Whatever does not land changes nothing.
   */
  lemma ExtractionLandsIff(sha: string -> nat, lib: Library, p: Proposal)
    ensures var (next, v) := ApplyProposal(sha, lib, p);
      var current := p.at in lib.chapters && sha(OrEmpty(lib.chapters[p.at].content)) == p.hash && p.wellFormed;
      var earlier := p.at in lib.extracted && lib.extracted[p.at].pipeline == p.pipeline;
      var same := earlier && p.run.Some? && lib.extracted[p.at].run == p.run && lib.extracted[p.at].hash == p.hash;
      && (v.Replayed? <==> current && same)
      && (v.Landed? <==> current && !same && (!earlier || p.force) && p.grounded)
      && next == (if v.Landed? then lib.(extracted := lib.extracted[p.at := Extraction(p.run, p.hash, p.pipeline)])
                  else lib)
  {}

  // ----- what the other events write ------------------------------------------------------------------

  // The chapters an event is about
  predicate About(e: Event, k: Key) {
    match e
    case Translation(c) => c.at == k
    case StageBatch(keys, _, _) => k in keys
    case ResetStaged(_, _) => true
    case MarkStarted(at, _) => at == k
    case MarkFailed(at, _) => at == k
    case Edit(at, _, _) => at == k
    case Ingest(at, _, _, _, _, _) => at == k
    case Replace(at, _, _, _) => at == k
    case Remove(at) => at == k
    case Relocate(_) => true
    case _ => false
  }

  lemma OthersStay(sha: string -> nat, lib: Library, e: Event, k: Key)
    requires !About(e, k)
    ensures k in Next(sha, lib, e).chapters <==> k in lib.chapters
    ensures k in lib.chapters ==> Next(sha, lib, e).chapters[k] == lib.chapters[k]
  {
    if e.Translation? {
      LandsIffFresh(sha, lib, e.c);
    }
  }

  /**
   What the optimistic commits rest on: as long as a chapter's row stands at its number, its source text and its
   content never change without its version going up.
   */
  lemma TextChangesRaiseVersions(sha: string -> nat, lib: Library, e: Event, k: Key)
    requires k in lib.chapters && !Takes(lib, e, k)
    ensures k in Next(sha, lib, e).chapters
    ensures var was, after := lib.chapters[k], Next(sha, lib, e).chapters[k];
      after.original != was.original || after.content != was.content ==> after.version > was.version
  {
    if !About(e, k) {
      OthersStay(sha, lib, e, k);
    }
  }

  /**
   A batch stages the listed chapters that have source text, are not being translated, and have no translation
   unless it is forced. A translation prepared from a chapter as it is staged then lands; for a chapter that was not
   staged, a translation of that run does not.
   */
  lemma StagedThenLands(sha: string -> nat, lib: Library, keys: set<Key>, run: nat, force: bool, c: Commit)
    requires c.at in lib.chapters && c.run == Some(run) && c.job.None?
    requires c.hash == sha(OrEmpty(lib.chapters[c.at].original)) && c.version == lib.chapters[c.at].version
    requires lib.chapters[c.at].run != Some(run)
    ensures var ch, next := lib.chapters[c.at], Next(sha, lib, StageBatch(keys, run, force));
      var stages := c.at in keys && OrEmpty(ch.original) != "" && ch.stage != Translating
        && (OrEmpty(ch.content) == "" || force);
      && (Lands(sha, next, Translation(c)) <==> stages)
      && next.chapters[c.at] ==
           (if stages then ch.(stage := Translating, run := Some(run), hash := Some(c.hash)) else ch)
  {}

  /** Giving a run up takes its chapters out of its hands, and no other run's. */
  lemma ResetGivesUp(sha: string -> nat, lib: Library, run: nat, stage: Stage, c: Commit)
    requires c.at in lib.chapters
    ensures var ch, next := lib.chapters[c.at], Next(sha, lib, ResetStaged(run, stage));
      var reset := ch.run == Some(run) && ch.stage == Translating;
      && next.chapters[c.at] == (if reset then ch.(stage := stage, run := None) else ch)
      && (reset && c.run == Some(run) ==> !Lands(sha, next, Translation(c)))
  {}

  /**
   A translator that works without staging marks the chapter as started, which ends any staging of it; a mark of
   failure leaves text, version and staging alone, and is not set over a staged chapter when only an unstaged one
   was meant.
   */
  lemma MarksOnly(sha: string -> nat, lib: Library, e: Event)
    requires (e.MarkStarted? || e.MarkFailed?) && e.at in lib.chapters
    ensures var ch, next := lib.chapters[e.at], Next(sha, lib, e);
      && (e.MarkStarted? ==> next.chapters[e.at] == ch.(stage := Translating, run := None, hash := Some(e.hash)))
      && (e.MarkFailed? ==>
            next.chapters[e.at] ==
            if e.onlyUnowned && (ch.run.Some? || ch.stage != Translating) then ch else ch.(stage := Unsuccessful))
      && next.overlays == lib.overlays
  {}

  /**
   What a chapter holds once it was edited, ingested or replaced by an import. An ingest that is not forced leaves
   an existing chapter alone; a forced one keeps the marks of its translation.
   */
  lemma WritesText(sha: string -> nat, lib: Library, e: Event)
    requires e.Edit? || e.Ingest? || e.Replace?
    ensures var next := Next(sha, lib, e).chapters;
      var known := e.at in lib.chapters;
      && (e.at in next <==> known || e.Ingest?)
      && (known && e.Edit? ==>
            next[e.at] == lib.chapters[e.at].(content := Some(e.text), stage := Translated,
                                              version := lib.chapters[e.at].version + 1))
      && (known && e.Ingest? && !e.force ==> next[e.at] == lib.chapters[e.at])
      && ((known && e.Replace?) || (!known && e.Ingest?) ==>
            next[e.at] ==
            Chapter(e.title, e.original, e.content, 1, if e.original.Some? then Awaiting else Untouched, None, None))
      && (known && e.Ingest? && e.force ==>
            var was, after := lib.chapters[e.at], next[e.at];
            && after.title == e.title && after.original == e.original && after.content == e.content
            && after.run == was.run && after.hash == was.hash
            && after.stage == (if e.original.Some? then Awaiting else Untouched)
            && was.version <= after.version
            && (e.minimum.Some? ==> e.minimum.value <= after.version)
            && (after.version <= was.version + 1 || e.minimum == Some(after.version)))
  {}

  // The event writes or drops the overlay, or moves it along with its chapter.
  predicate WritesOverlay(e: Event, o: (nat, Key)) {
    (e.SaveOverlay? || e.DropOverlay?) && o == (e.user, e.at)
  }

  predicate MovesOverlay(e: Event, o: (nat, Key)) {
    (e.Reanchor? && o == (e.user, e.at)) || (e.Edit? && e.keep == Some(o.0) && o.1 == e.at)
  }

  /**
   Whatever happens to the chapter below it, an overlay keeps its text; it keeps its base version and its mark unless
   its own reader moves it along; and it is only marked if its chapter was replaced or has left it behind.
   */
  lemma OverlaysKeepTheirText(sha: string -> nat, lib: Library, e: Event, o: (nat, Key))
    requires o in lib.overlays && !WritesOverlay(e, o)
    ensures o in Next(sha, lib, e).overlays
    ensures var was, after := lib.overlays[o], Next(sha, lib, e).overlays[o];
      && after.content == was.content
      && (!MovesOverlay(e, o) ==> after.base == was.base && (was.conflict ==> after.conflict))
      && (!was.conflict && after.conflict ==>
            || (e.Replace? && e.at == o.1)
            || (o.1 in lib.chapters && o.1 in Next(sha, lib, e).chapters
                && after.base < Next(sha, lib, e).chapters[o.1].version))
  {}

  lemma OverlayWrites(sha: string -> nat, lib: Library, e: Event, o: (nat, Key))
    requires WritesOverlay(e, o) || MovesOverlay(e, o)
    ensures var next := Next(sha, lib, e).overlays;
      && (e.SaveOverlay? ==> o in next && next[o] == Overlay(e.text, e.base, false))
      && (e.DropOverlay? ==> o !in next)
      && (e.Reanchor? && o in lib.overlays ==> next[o] == lib.overlays[o].(base := e.base, conflict := false))
      && (e.Edit? && o in lib.overlays && e.at in lib.chapters ==>
            next[o] == lib.overlays[o].(base := lib.chapters[e.at].version + 1, conflict := false))
  {}

  // ----- versions over a run --------------------------------------------------------------------------

  // The event takes the row that stands at `k` away: it is removed, replaced by an import, or renumbered.
  predicate Takes(lib: Library, e: Event, k: Key) {
    k in lib.chapters &&
    match e
    case Remove(at) => at == k
    case Replace(at, _, _, _) => at == k
    case Relocate(from) => Rearranges(lib, from) && !(k in from && from[k] == k)
    case _ => false
  }

  lemma StagingKeepsVersions(sha: string -> nat, lib: Library, e: Event, k: Key)
    requires k in lib.chapters && (e.StageBatch? || e.ResetStaged? || e.MarkStarted? || e.MarkFailed?)
    ensures k in Next(sha, lib, e).chapters && Next(sha, lib, e).chapters[k].version == lib.chapters[k].version
  {}

  lemma WritingRaisesVersions(sha: string -> nat, lib: Library, e: Event, k: Key)
    requires k in lib.chapters && (e.Translation? || e.Edit? || e.Ingest?)
    ensures k in Next(sha, lib, e).chapters && Next(sha, lib, e).chapters[k].version >= lib.chapters[k].version
  {}

  lemma VersionGrows(sha: string -> nat, lib: Library, e: Event, k: Key)
    requires k in lib.chapters && !Takes(lib, e, k)
    ensures k in Next(sha, lib, e).chapters && Next(sha, lib, e).chapters[k].version >= lib.chapters[k].version
  {
    if e.StageBatch? || e.ResetStaged? || e.MarkStarted? || e.MarkFailed? {
      StagingKeepsVersions(sha, lib, e, k);
    } else if e.Translation? || e.Edit? || e.Ingest? {
      WritingRaisesVersions(sha, lib, e, k);
    }
  }

  lemma LandingBumps(sha: string -> nat, lib: Library, e: Event)
    requires Lands(sha, lib, e)
    ensures e.c.at in lib.chapters && lib.chapters[e.c.at].version == e.c.version
    ensures e.c.at in Next(sha, lib, e).chapters && Next(sha, lib, e).chapters[e.c.at].version == e.c.version + 1
  {}

  // Commits prepared at version `v` of the chapter at `k` that land in a run, and rows taken away from `k` in it
  function Landings(sha: string -> nat, lib: Library, es: seq<Event>, k: Key, v: nat): nat {
    if es == [] then 0
    else
      var front, e := es[..|es| - 1], es[|es| - 1];
      Landings(sha, lib, front, k, v)
      + if Lands(sha, Run(sha, lib, front), e) && e.c.at == k && e.c.version == v then 1 else 0
  }

  function Takings(sha: string -> nat, lib: Library, es: seq<Event>, k: Key): nat {
    if es == [] then 0
    else
      var front, e := es[..|es| - 1], es[|es| - 1];
      Takings(sha, lib, front, k) + if Takes(Run(sha, lib, front), e, k) then 1 else 0
  }

  predicate Past(lib: Library, k: Key, v: nat) {
    k in lib.chapters && lib.chapters[k].version > v
  }

  /**
   A stale commit never lands. Whatever happens in between, each version of a chapter is committed over at most
   once for each row that stands at its number, and never once that row has moved past the version.
   */
  lemma {:induction false} StaleNeverLands(sha: string -> nat, lib: Library, es: seq<Event>, k: Key, v: nat)
    ensures Landings(sha, lib, es, k, v) + (if Past(lib, k, v) then 1 else 0)
      <= Takings(sha, lib, es, k) + if Past(Run(sha, lib, es), k, v) then 1 else 0
    ensures Landings(sha, lib, es, k, v) <= 1 + Takings(sha, lib, es, k)
    ensures Past(lib, k, v) ==> Landings(sha, lib, es, k, v) <= Takings(sha, lib, es, k)
  {
    if es != [] {
      var front, e := es[..|es| - 1], es[|es| - 1];
      StaleNeverLands(sha, lib, front, k, v);
      StaleStep(sha, Run(sha, lib, front), e, k, v);
    }
  }

  lemma StaleStep(sha: string -> nat, lib: Library, e: Event, k: Key, v: nat)
    ensures (if Lands(sha, lib, e) && e.c.at == k && e.c.version == v then 1 else 0)
        + (if Past(lib, k, v) then 1 else 0)
      <= (if Takes(lib, e, k) then 1 else 0) + if Past(Next(sha, lib, e), k, v) then 1 else 0
  {
    if Lands(sha, lib, e) {
      LandingBumps(sha, lib, e);
    }
    if k in lib.chapters && !Takes(lib, e, k) {
      VersionGrows(sha, lib, e, k);
    }
  }

  /**
   A commit that has landed lands again, after whatever run, only if a row was taken away from its number. The
   three lemmas after this one say for each way of taking it away when the commit then lands.
   */
  lemma LandsAgainTakesARow(sha: string -> nat, lib: Library, es: seq<Event>, c: Commit)
    requires Lands(sha, lib, Translation(c))
    ensures var mid := Next(sha, lib, Translation(c));
      Lands(sha, Run(sha, mid, es), Translation(c)) ==> Takings(sha, mid, es, c.at) > 0
  {
    var mid := Next(sha, lib, Translation(c));
    LandingBumps(sha, lib, Translation(c));
    StaleNeverLands(sha, mid, es, c.at, c.version);
    if Lands(sha, Run(sha, mid, es), Translation(c)) {
      LandingBumps(sha, Run(sha, mid, es), Translation(c));
    }
  }

  /**
   After a renumbering it lands again exactly if another chapter was moved onto the number which, before the commit
   first landed, had the version, source text and staging run it was prepared from, and a unit is left.
   */
  lemma RenumberingRevivesIff(sha: string -> nat, lib: Library, c: Commit, e: Event)
    requires Lands(sha, lib, Translation(c)) && e.Relocate? && Rearranges(lib, e.from)
    ensures var mid := Next(sha, lib, Translation(c));
      Lands(sha, Next(sha, mid, e), Translation(c)) <==>
        && c.at in e.from && e.from[c.at] != c.at
        && var other := lib.chapters[e.from[c.at]];
           && Unchanged(sha, other, c) && !IsReplay(other, c) && Charged(mid.work, c.job, c.now).Some?
  {
    LandingBumps(sha, lib, Translation(c));
    LandsIffFresh(sha, lib, c);
    LandsAfterRelocation(sha, Next(sha, lib, Translation(c)), c, e.from);
  }

  lemma LandsAfterRelocation(sha: string -> nat, lib: Library, c: Commit, from: map<Key, Key>)
    requires Rearranges(lib, from)
    ensures Lands(sha, Next(sha, lib, Relocate(from)), Translation(c)) <==>
      && c.at in from && Unchanged(sha, lib.chapters[from[c.at]], c) && !IsReplay(lib.chapters[from[c.at]], c)
      && Charged(lib.work, c.job, c.now).Some?
  {}

  /**
   An import that replaces the chapter sets it back to version one, although the importer asks for a higher
   version than before. A commit that had landed then lands again exactly if it was prepared from version one of
   the same source text, outside any staging run, with a unit left.
   */
  lemma ReplacementRevivesIff(sha: string -> nat, lib: Library, c: Commit, e: Event)
    requires Lands(sha, lib, Translation(c)) && e.Replace? && e.at == c.at
    ensures var mid := Next(sha, lib, Translation(c));
      Lands(sha, Next(sha, mid, e), Translation(c)) <==>
        c.version == 1 && sha(OrEmpty(e.original)) == c.hash && c.run.None? && Charged(mid.work, c.job, c.now).Some?
  {}

  /** The same holds when the chapter is removed and ingested afresh. */
  lemma RemovalRevivesIff(sha: string -> nat, lib: Library, c: Commit, e: Event)
    requires Lands(sha, lib, Translation(c)) && e.Ingest? && e.at == c.at
    ensures var mid := Next(sha, lib, Translation(c));
      Lands(sha, Next(sha, Next(sha, mid, Remove(c.at)), e), Translation(c)) <==>
        c.version == 1 && sha(OrEmpty(e.original)) == c.hash && c.run.None? && Charged(mid.work, c.job, c.now).Some?
  {}

  lemma ReplacementLandsTwiceExample(sha: string -> nat, lib: Library, c: Commit)
    requires Lands(sha, lib, Translation(c)) && c.version == 1 && c.run.None? && c.job.None?
    ensures var again := Replace(c.at, lib.chapters[c.at].original, None, None);
      Landings(sha, lib, [Translation(c), again, Translation(c)], c.at, 1) == 2
  {
    var again := Replace(c.at, lib.chapters[c.at].original, None, None);
    var es := [Translation(c), again, Translation(c)];
    assert es[..2][..1] == es[..1] && es[..1][..0] == [] && es[..2] == [Translation(c), again];
    LandingBumps(sha, lib, Translation(c));
    ReplacementRevivesIff(sha, lib, c, again);
    assert Run(sha, lib, es[..1]) == Next(sha, lib, Translation(c));
    assert Landings(sha, lib, es[..1], c.at, 1) == 1;
    assert Landings(sha, lib, es[..2], c.at, 1) == 1;
  }

  // ----- codex ----------------------------------------------------------------------------------------

  // Event `i` stored `x`, whose hash is that of the chapter's content at that moment.
  ghost predicate StoredAt(sha: string -> nat, lib: Library, es: seq<Event>, i: nat, k: Key, x: Extraction) {
    && i < |es| && es[i].Codex? && es[i].p.at == k
    && var before := Run(sha, lib, es[..i]);
       && ApplyProposal(sha, before, es[i].p).1.Landed?
       && k in before.chapters && x.hash == sha(OrEmpty(before.chapters[k].content))
  }

  /** Every extraction present after a run was there at the start or carries the hash of what it was made from. */
  lemma {:induction false} ExtractionsWereCurrent(sha: string -> nat, lib: Library, es: seq<Event>, k: Key)
    requires k in Run(sha, lib, es).extracted
    ensures var x := Run(sha, lib, es).extracted[k];
      (k in lib.extracted && x == lib.extracted[k]) || exists i: nat :: StoredAt(sha, lib, es, i, k, x)
  {
    if es != [] {
      var n := |es| - 1;
      var front, e := es[..n], es[n];
      var mid := Run(sha, lib, front);
      var x := Run(sha, lib, es).extracted[k];
      if e.Codex? && e.p.at == k && ApplyProposal(sha, mid, e.p).1.Landed? {
        assert StoredAt(sha, lib, es, n, k, x);
      } else {
        OnlyCodexExtracts(sha, mid, e, k);
        ExtractionsWereCurrent(sha, lib, front, k);
        if i: nat :| StoredAt(sha, lib, front, i, k, x) {
          assert front[..i] == es[..i];
          assert StoredAt(sha, lib, es, i, k, x);
        }
      }
    }
  }

  lemma OnlyCodexExtracts(sha: string -> nat, lib: Library, e: Event, k: Key)
    requires !(e.Codex? && e.p.at == k && ApplyProposal(sha, lib, e.p).1.Landed?)
    ensures k in Next(sha, lib, e).extracted <==> k in lib.extracted
    ensures k in lib.extracted ==> Next(sha, lib, e).extracted[k] == lib.extracted[k]
  {}

  // ----- consumption ----------------------------------------------------------------------------------

  function LandedFor(sha: string -> nat, lib: Library, es: seq<Event>, id: nat): nat {
    if es == [] then 0
    else
      var front, e := es[..|es| - 1], es[|es| - 1];
      LandedFor(sha, lib, front, id) + if Lands(sha, Run(sha, lib, front), e) && e.c.job == Some(id) then 1 else 0
  }

  predicate SettlesWell(e: Event, id: nat) {
    e.Finalize? && e.id == id && e.success
  }

  lemma SettlementFrame(db: Db, other: nat, success: bool, now: int, id: nat)
    requires id < |db.jobs|
    ensures var next := FinalizeJobQuota(db, other, success, now).0;
      |next.jobs| == |db.jobs| && JobMoves(db.jobs[id], next.jobs[id], 0, other == id && success)
  {}

  lemma AdvanceKeepsConsumed(db: Db, other: nat, step: RowStep, now: int, id: nat)
    requires id < |db.jobs|
    ensures var w := AdvanceJob(db, other, step, now);
      w.Some? ==>
        && |w.value.jobs| == |db.jobs| && w.value.jobs[id].reserved == db.jobs[id].reserved
        && w.value.jobs[id].finalized == db.jobs[id].finalized && w.value.jobs[id].consumed == db.jobs[id].consumed
  {}

  // How one step moves a job: by `unit` landed translations, unless `spent` by a successful settlement
  predicate JobMoves(j: Job, j': Job, unit: nat, spent: bool) {
    && j'.reserved == j.reserved && (j.finalized ==> j'.finalized)
    && (unit > 0 ==> !j.finalized && j.consumed + unit <= j.reserved)
    && (j'.consumed == j.consumed + unit || (spent && !j.finalized && j'.finalized && j'.consumed == j'.reserved))
  }

  function Unit(sha: string -> nat, lib: Library, e: Event, id: nat): nat {
    if Lands(sha, lib, e) && e.c.job == Some(id) then 1 else 0
  }

  lemma ConsumedStep(sha: string -> nat, lib: Library, e: Event, id: nat)
    requires id < |lib.work.jobs|
    ensures id < |Next(sha, lib, e).work.jobs|
    ensures JobMoves(lib.work.jobs[id], Next(sha, lib, e).work.jobs[id], Unit(sha, lib, e, id), SettlesWell(e, id))
  {
    match e
    case Translation(c) => CommitMovesJob(sha, lib, c, id);
    case Finalize(other, success, now) => SettlementFrame(lib.work, other, success, now, id);
    case Advanced(other, step, now) => AdvanceKeepsConsumed(lib.work, other, step, now, id);
    case _ => WorkStays(sha, lib, e);
  }

  lemma WorkStays(sha: string -> nat, lib: Library, e: Event)
    requires !e.Translation? && !e.Finalize? && !e.Advanced?
    ensures Next(sha, lib, e).work == lib.work
  {}

  lemma CommitMovesJob(sha: string -> nat, lib: Library, c: Commit, id: nat)
    requires id < |lib.work.jobs|
    ensures id < |ApplyCommit(sha, lib, c).0.work.jobs|
    ensures JobMoves(lib.work.jobs[id], ApplyCommit(sha, lib, c).0.work.jobs[id],
              Unit(sha, lib, Translation(c), id), false)
  {}

  /**
   A job's consumed count is the number of its translations that landed, replays and refusals not counted,
   until a successful settlement of a job that spends its whole reservation; it never exceeds the reservation,
   and nothing lands for a settled job.
   */
  lemma {:induction false} ConsumedCountsLandings(sha: string -> nat, lib: Library, es: seq<Event>, id: nat)
    requires id < |lib.work.jobs| && lib.work.jobs[id].consumed <= lib.work.jobs[id].reserved
    ensures var end := Run(sha, lib, es);
      && id < |end.work.jobs|
      && end.work.jobs[id].consumed <= end.work.jobs[id].reserved == lib.work.jobs[id].reserved
      && (end.work.jobs[id].consumed == lib.work.jobs[id].consumed + LandedFor(sha, lib, es, id)
          || (end.work.jobs[id].finalized && end.work.jobs[id].consumed == end.work.jobs[id].reserved))
      && ((forall e | e in es :: !SettlesWell(e, id)) ==>
            end.work.jobs[id].consumed == lib.work.jobs[id].consumed + LandedFor(sha, lib, es, id))
      && lib.work.jobs[id].consumed + LandedFor(sha, lib, es, id) <= lib.work.jobs[id].reserved
      && (lib.work.jobs[id].finalized ==> end.work.jobs[id].finalized && LandedFor(sha, lib, es, id) == 0)
  {
    if es != [] {
      ConsumedCountsLandings(sha, lib, es[..|es| - 1], id);
      ConsumedStep(sha, Run(sha, lib, es[..|es| - 1]), es[|es| - 1], id);
    }
  }

  // ----- overlays -------------------------------------------------------------------------------------

  // An overlay older than its chapter is marked as conflicting.
  ghost predicate OverlaysFlagged(lib: Library) {
    forall o | o in lib.overlays && o.1 in lib.chapters && !lib.overlays[o].conflict ::
      lib.overlays[o].base >= lib.chapters[o.1].version
  }

  // The event writes an overlay against a version the chapter has already left.
  predicate Late(lib: Library, e: Event) {
    || (e.SaveOverlay? && e.at in lib.chapters && e.base < lib.chapters[e.at].version)
    || (e.Reanchor? && (e.user, e.at) in lib.overlays && e.at in lib.chapters && e.base < lib.chapters[e.at].version)
  }

  lemma FlagsAfterIngest(lib: Library, e: Event)
    requires OverlaysFlagged(lib) && e.Ingest?
    ensures OverlaysFlagged(Ingested(lib, e))
  {}

  lemma FlagsAfterEdit(lib: Library, e: Event)
    requires OverlaysFlagged(lib) && e.Edit?
    ensures OverlaysFlagged(Edited(lib, e))
  {}

  lemma FlagsAfterCommit(sha: string -> nat, lib: Library, c: Commit)
    requires OverlaysFlagged(lib)
    ensures OverlaysFlagged(ApplyCommit(sha, lib, c).0)
  {}

  // Staging and its marks change neither versions nor overlays.
  lemma FlagsAfterStaging(sha: string -> nat, lib: Library, e: Event)
    requires OverlaysFlagged(lib) && (e.StageBatch? || e.ResetStaged? || e.MarkStarted? || e.MarkFailed?)
    ensures OverlaysFlagged(Next(sha, lib, e))
  {}

  lemma FlagsAfterReplacement(sha: string -> nat, lib: Library, e: Event)
    requires OverlaysFlagged(lib) && (e.Replace? || e.Remove? || e.DropOverlay?)
    ensures OverlaysFlagged(Next(sha, lib, e))
  {}

  lemma FlagsAfterWrite(lib: Library, o: (nat, Key), x: Overlay)
    requires OverlaysFlagged(lib) && !x.conflict
    ensures OverlaysFlagged(lib.(overlays := lib.overlays[o := x])) <==>
      (o.1 in lib.chapters ==> x.base >= lib.chapters[o.1].version)
  {
    assert o in lib.overlays[o := x];
  }

  lemma FlagsAfterOverlayWrite(sha: string -> nat, lib: Library, e: Event)
    requires OverlaysFlagged(lib) && (e.SaveOverlay? || e.Reanchor?)
    ensures OverlaysFlagged(Next(sha, lib, e)) <==> !Late(lib, e)
  {
    var o := (e.user, e.at);
    if e.SaveOverlay? {
      FlagsAfterWrite(lib, o, Overlay(e.text, e.base, false));
    } else if o in lib.overlays {
      FlagsAfterWrite(lib, o, lib.overlays[o].(base := e.base, conflict := false));
    }
  }

  // The event puts a chapter under an unmarked overlay that is older than the chapter.
  predicate Misplaces(lib: Library, e: Event) {
    && e.Relocate? && Rearranges(lib, e.from)
    && exists o | o in lib.overlays :: o.1 in e.from && !lib.overlays[o].conflict
         && lib.overlays[o].base < lib.chapters[e.from[o.1]].version
  }

  // What a reader is shown: the stored mark, or the versions disagreeing at that moment
  predicate ShownConflict(lib: Library, o: (nat, Key))
    requires o in lib.overlays && o.1 in lib.chapters
  {
    lib.overlays[o].conflict || lib.overlays[o].base < lib.chapters[o.1].version
  }

  /** The stored marks tell what readers are shown exactly while every overlay behind its chapter is marked. */
  lemma MarksAreWhatIsShownIff(lib: Library)
    ensures OverlaysFlagged(lib) <==>
      forall o | o in lib.overlays && o.1 in lib.chapters :: ShownConflict(lib, o) == lib.overlays[o].conflict
  {}

  lemma FlagsAfterRelocation(sha: string -> nat, lib: Library, e: Event)
    requires OverlaysFlagged(lib) && e.Relocate?
    ensures OverlaysFlagged(Next(sha, lib, e)) <==> !Misplaces(lib, e)
  {
    var next := Next(sha, lib, e);
    if Rearranges(lib, e.from) {
      assert forall k | k in next.chapters :: k in e.from && next.chapters[k] == lib.chapters[e.from[k]];
    }
  }

  /** The marking of overlays survives an event exactly when it is not a late overlay write and misplaces none. */
  lemma FlagsSurviveIffNotLate(sha: string -> nat, lib: Library, e: Event)
    requires OverlaysFlagged(lib)
    ensures OverlaysFlagged(Next(sha, lib, e)) <==> !Late(lib, e) && !Misplaces(lib, e)
  {
    if e.Relocate? {
      FlagsAfterRelocation(sha, lib, e);
    } else if e.Translation? {
      FlagsAfterCommit(sha, lib, e.c);
    } else if e.Ingest? {
      FlagsAfterIngest(lib, e);
    } else if e.Edit? {
      FlagsAfterEdit(lib, e);
    } else if e.StageBatch? || e.ResetStaged? || e.MarkStarted? || e.MarkFailed? {
      FlagsAfterStaging(sha, lib, e);
    } else if e.Replace? || e.Remove? || e.DropOverlay? {
      FlagsAfterReplacement(sha, lib, e);
    } else if e.SaveOverlay? || e.Reanchor? {
      FlagsAfterOverlayWrite(sha, lib, e);
    }
  }

  lemma {:induction false} FlagsSurviveRuns(sha: string -> nat, lib: Library, es: seq<Event>)
    requires OverlaysFlagged(lib)
    requires forall i: nat {:trigger es[i]} | i < |es| ::
      !Late(Run(sha, lib, es[..i]), es[i]) && !Misplaces(Run(sha, lib, es[..i]), es[i])
    ensures OverlaysFlagged(Run(sha, lib, es))
  {
    if es != [] {
      var front := es[..|es| - 1];
      forall i: nat | i < |front|
        ensures !Late(Run(sha, lib, front[..i]), front[i]) && !Misplaces(Run(sha, lib, front[..i]), front[i])
      {
        assert front[..i] == es[..i] && front[i] == es[i];
      }
      FlagsSurviveRuns(sha, lib, front);
      FlagsSurviveIffNotLate(sha, Run(sha, lib, front), es[|es| - 1]);
    }
  }

  lemma StaysAsItWas(sha: string -> nat, lib: Library, c: Commit, v: Verdict)
    requires v == if c.at in lib.chapters && IsReplay(lib.chapters[c.at], c) then Replayed else Refused
    requires v.Refused? && c.at in lib.chapters ==> !Unchanged(sha, lib.chapters[c.at], c)
    ensures ApplyCommit(sha, lib, c) == (lib, v)
  {}

  // ----- the workflows, as they run -------------------------------------------------------------------

  class Archive {
    const sha: string -> nat
    var chapters: map<Key, Chapter>
    var overlays: map<(nat, Key), Overlay>
    var glossary: map<(nat, string), string>
    var extracted: map<Key, Extraction>
    var work: Db

    function State(): Library
      reads this
    {
      Library(chapters, overlays, glossary, extracted, work)
    }

    constructor (sha: string -> nat, lib: Library)
      ensures this.sha == sha && State() == lib
    {
      this.sha := sha;
      chapters, overlays, glossary := lib.chapters, lib.overlays, lib.glossary;
      extracted, work := lib.extracted, lib.work;
    }

    /** `insert_discovered_terms`: the number of terms that were new. */
    method InsertDiscoveredTerms(novel: nat, terms: seq<Term>) returns (inserted: nat)
      modifies `glossary
      ensures glossary == InsertTerms(old(glossary), novel, terms)
      ensures |glossary| == |old(glossary)| + inserted
    {
      inserted := 0;
      for i := 0 to |terms|
        invariant glossary == InsertTerms(old(glossary), novel, terms[..i])
        invariant |glossary| == |old(glossary)| + inserted
      {
        assert terms[..i + 1][..i] == terms[..i];
        var key := (novel, Text.Strip(terms[i].source));
        if key !in glossary {
          glossary := glossary[key := Text.Strip(terms[i].translation)];
          inserted := inserted + 1;
        }
      }
      assert terms[..|terms|] == terms;
    }

    /** The Reading part: replay test, freshness tests, the chapter write and the overlay marks. */
    method CommitReading(c: Commit) returns (v: Verdict)
      modifies `chapters, `overlays
      ensures v.Replayed? <==> c.at in old(chapters) && FinishedBy(old(chapters)[c.at], c)
      ensures v.Landed? <==>
        c.at in old(chapters) && !FinishedBy(old(chapters)[c.at], c) && Unchanged(sha, old(chapters)[c.at], c)
      ensures !v.Landed? ==> chapters == old(chapters) && overlays == old(overlays)
      ensures v.Landed? ==> chapters == old(chapters)[c.at := Delivered(old(chapters)[c.at], c)]
      ensures v.Landed? ==> Rewritten(old(chapters)[c.at], chapters[c.at], c)
      ensures v.Landed? ==> overlays == FlagBehind(old(overlays), c.at, old(chapters)[c.at].version + 1)
    {
      if c.at !in chapters {
        return Refused;
      }
      var row := chapters[c.at];
      var actual := sha(OrEmpty(row.original));
      if c.run.Some? && row.run == c.run && row.stage.Translated? && row.hash == Some(c.hash) {
        return Replayed;
      }
      if actual != c.hash || row.version != c.version {
        return Refused;
      }
      if c.run.Some? && row.run != c.run {
        return Refused;
      }
      if c.run.None? && row.run.Some? {
        return Refused;
      }
      var title := Text.Strip(OrEmpty(c.title));
      var version := row.version + 1;
      chapters := chapters[c.at := Chapter(if title == "" then row.title else Some(title), row.original,
        Some(Text.Strip(c.text)), version, Translated, c.run, Some(c.hash))];
      overlays := FlagBehind(overlays, c.at, chapters[c.at].version);
      v := Landed;
    }

    /** `commit_translation`: reading, then the glossary, then the job's unit, all in one unit of work. */
    method CommitTranslation(c: Commit) returns (v: Verdict)
      modifies this
      ensures (State(), v) == ApplyCommit(sha, old(State()), c)
    {
      ghost var before := State();
      var chaptersBefore, overlaysBefore, glossaryBefore := chapters, overlays, glossary;
      v := CommitReading(c);
      if !v.Landed? {
        StaysAsItWas(sha, before, c, v);
        return;
      }
      var _ := InsertDiscoveredTerms(c.at.novel, c.terms);
      var charged := if c.job.None? then Some(work) else Increment(work, c.job.value, 1, c.now);
      if charged.None? {
        chapters, overlays, glossary := chaptersBefore, overlaysBefore, glossaryBefore;
        return Refused;
      }
      work := charged.value;
      assert State() == Delivery(before, c, work);
    }

    /** `commit_codex_extraction`: the hash of the locked row is compared before the codex writes anything. */
    method CommitExtraction(p: Proposal) returns (v: Verdict)
      modifies `extracted
      ensures (State(), v) == ApplyProposal(sha, old(State()), p)
      ensures v.Landed? ==> p.at in chapters && extracted[p.at].hash == sha(OrEmpty(chapters[p.at].content))
    {
      if p.at !in chapters || sha(OrEmpty(chapters[p.at].content)) != p.hash {
        return Refused;
      }
      if !p.wellFormed {
        return Refused;
      }
      if p.at in extracted && extracted[p.at].pipeline == p.pipeline {
        var existing := extracted[p.at];
        if p.run.Some? && existing.run == p.run && existing.hash == p.hash {
          return Replayed;
        }
        if !p.force {
          return Refused;
        }
      }
      if !p.grounded {
        return Refused;
      }
      extracted := extracted[p.at := Extraction(p.run, p.hash, p.pipeline)];
      v := Landed;
    }
  }
}
