/** The application/offer workflow of script.js as functions on the two
    stored collections, `tcv_applications` and `tcv_offers`: apply, reject,
    send an offer, accept or decline it, and delete an application with the
    cascade onto its offers. Each function gives the collection the handler
    writes back; the lemmas state what every step keeps and changes. */
module Workflow {
  import opened Seqs
  import opened Text

  /** `'applied'`, `'rejected'`, `'offered'`, `'offered-accepted'`,
      `'offered-declined'`. */
  datatype AppStatus = Applied | Rejected | Offered | OfferedAccepted | OfferedDeclined

  /** `'sent'`, `'accepted'`, `'declined'`, `'cancelled'`. */
  datatype OfferStatus = Sent | Accepted | Declined | Cancelled

  /** The `action` of a log entry. `offer_cancelled` is read by the poster
      inbox but no handler writes it. */
  datatype Action = ApplicationRejected | OfferSent | OfferAccepted | OfferDeclined | OfferCancelled

  /** One entry of an application's audit log, newest first. */
  datatype LogEntry = LogEntry(ts: int, actor: string, action: Action, offerId: Option<int>, note: Option<string>, price: Option<int>)

  /** A stored application. A missing `log` reads as the empty log
      (`all[idx].log || []`), a missing `offerId` as `None`; `candidateCv`
      is the stored CV as text. */
  datatype Application = Application(
    jobId: string,
    jobTitle: string,
    posterEmail: string,
    candidateEmail: string,
    candidateName: string,
    candidateCv: Option<string>,
    cvPdf: Option<string>,
    status: AppStatus,
    offerId: Option<int>,
    log: seq<LogEntry>,
    createdAt: int)

  /** A stored offer; `createdAt` doubles as its id. */
  datatype Offer = Offer(posterEmail: string, candidateEmail: string, jobId: string, price: int, note: string, status: OfferStatus, createdAt: int)

  /** The note of the log entry a rejection writes. */
  const RejectNote: string := "Hồ sơ bị từ chối bởi nhà tuyển dụng"

  /** The composite key of the employer handlers: candidate, job and the
      signed-in poster. */
  predicate IsFor(a: Application, poster: string, cand: string, job: string) {
    a.candidateEmail == cand && a.jobId == job && a.posterEmail == poster
  }

  predicate OfferIsFor(o: Offer, poster: string, cand: string, job: string) {
    o.candidateEmail == cand && o.jobId == job && o.posterEmail == poster
  }

  /** `all.findIndex(x => x.candidateEmail===cand && x.jobId===jobId &&
      x.posterEmail===myEmail)`. */
  function MatchIndex(apps: seq<Application>, poster: string, cand: string, job: string): (i: int)
    ensures -1 <= i < |apps|
    ensures i >= 0 ==> IsFor(apps[i], poster, cand, job) && forall j | 0 <= j < i :: !IsFor(apps[j], poster, cand, job)
    ensures i < 0 ==> forall j | 0 <= j < |apps| :: !IsFor(apps[j], poster, cand, job)
  {
    FirstIndex(apps, (a: Application) => IsFor(a, poster, cand, job))
  }

  // ---------------------------------------------------------------------
  // Invariants shared by the steps

  /** At most one application per candidate and job: the duplicate check of
      the apply handler. */
  predicate OnePerJob(apps: seq<Application>) {
    forall i, j | 0 <= i < j < |apps| :: !(apps[i].candidateEmail == apps[j].candidateEmail && apps[i].jobId == apps[j].jobId)
  }

  /** `after` is `before` with only status, offer link and log changed. */
  predicate SameRecord(before: Application, after: Application) {
    after == before.(status := after.status, offerId := after.offerId, log := after.log)
  }

  /** `after` holds every entry of `before`, with newer ones in front. */
  predicate LogExtends(before: seq<LogEntry>, after: seq<LogEntry>) {
    |before| <= |after| && after[|after| - |before|..] == before
  }

  /** The same applications in the same order, each changed at most in its
      status, its offer link and its log, and each log only grown at its
      front. */
  predicate Evolved(before: seq<Application>, after: seq<Application>) {
    && |after| == |before|
    && forall i | 0 <= i < |before| :: SameRecord(before[i], after[i]) && LogExtends(before[i].log, after[i].log)
  }

  /** Changing one record in place, as the handlers do with `all[idx]`,
      is an evolution when the record keeps its data and grows its log. */
  lemma UpdateEvolves(apps: seq<Application>, i: nat, a: Application)
    requires i < |apps|
    requires SameRecord(apps[i], a) && LogExtends(apps[i].log, a.log)
    ensures Evolved(apps, apps[i := a])
  {
    forall j | 0 <= j < |apps| && j != i
      ensures LogExtends(apps[j].log, apps[j].log)
    {
      assert apps[j].log[0..] == apps[j].log;
    }
  }

  /** Leaving the collection alone is an evolution. */
  lemma EvolvedSelf(apps: seq<Application>)
    ensures Evolved(apps, apps)
  {
    forall j | 0 <= j < |apps| ensures LogExtends(apps[j].log, apps[j].log) {
      assert apps[j].log[0..] == apps[j].log;
    }
  }

  /** An evolution keeps every key, so it keeps one application per job. */
  lemma EvolvedOnePerJob(before: seq<Application>, after: seq<Application>)
    requires Evolved(before, after) && OnePerJob(before)
    ensures OnePerJob(after)
  {
    forall i, j | 0 <= i < j < |after|
      ensures !(after[i].candidateEmail == after[j].candidateEmail && after[i].jobId == after[j].jobId)
    {
      assert SameRecord(before[i], after[i]) && SameRecord(before[j], after[j]);
    }
  }

  /** A record in front of a list keeps one application per job when no
      record of the list has its key. */
  lemma ConsOnePerJob(h: Application, rest: seq<Application>)
    requires OnePerJob(rest)
    requires forall x | x in rest :: !(x.candidateEmail == h.candidateEmail && x.jobId == h.jobId)
    ensures OnePerJob([h] + rest)
  {
    var r := [h] + rest;
    forall i, j | 0 <= i < j < |r|
      ensures !(r[i].candidateEmail == r[j].candidateEmail && r[i].jobId == r[j].jobId)
    {
      assert r[j] == rest[j - 1];
      if i == 0 {
        assert rest[j - 1] in rest;
      } else {
        assert r[i] == rest[i - 1];
      }
    }
  }

  /** The records after the first of a list with one application per job
      keep that property, and none of them shares the first one's key. */
  lemma TailOnePerJob(apps: seq<Application>)
    requires apps != [] && OnePerJob(apps)
    ensures OnePerJob(apps[1..])
    ensures forall x | x in apps[1..] :: !(x.candidateEmail == apps[0].candidateEmail && x.jobId == apps[0].jobId)
  {
    var tail := apps[1..];
    forall i, j | 0 <= i < j < |tail|
      ensures !(tail[i].candidateEmail == tail[j].candidateEmail && tail[i].jobId == tail[j].jobId)
    {
      assert tail[i] == apps[i + 1] && tail[j] == apps[j + 1];
    }
    forall x | x in tail
      ensures !(x.candidateEmail == apps[0].candidateEmail && x.jobId == apps[0].jobId)
    {
      var k :| 0 <= k < |tail| && tail[k] == x;
      assert apps[k + 1] == x;
    }
  }

  /** Prepending one entry extends a log. */
  lemma PrependExtends(e: LogEntry, log: seq<LogEntry>)
    ensures LogExtends(log, [e] + log)
  {
    assert ([e] + log)[1..] == log;
  }

  // ---------------------------------------------------------------------
  // Apply (the detail page's apply button)

  /** Some application of `cand` for `job` exists (`applications.find`). */
  predicate HasApplied(apps: seq<Application>, cand: string, job: string) {
    exists i | 0 <= i < |apps| :: apps[i].candidateEmail == cand && apps[i].jobId == job
  }

  /** The record the apply handler stores: status `applied`, no offer, an
      empty log. */
  function NewApplication(job: string, title: string, poster: string, cand: string, name: string, cv: Option<string>, pdf: Option<string>, now: int): (a: Application)
    ensures a.status == Applied && a.offerId == None && a.log == []
    ensures a.jobId == job && a.candidateEmail == cand && a.posterEmail == poster
  {
    Application(job, title, poster, cand, name, cv, pdf, Applied, None, [], now)
  }

  /** The collection after an apply: unchanged on a duplicate, else the new
      record in front of the old list. */
  function AfterApply(apps: seq<Application>, rec: Application): seq<Application> {
    if HasApplied(apps, rec.candidateEmail, rec.jobId) then apps else [rec] + apps
  }

  /** Applying leaves the candidate applied to the job; a duplicate changes
      nothing; otherwise exactly one record is added, in front, and the old
      list follows unchanged. */
  lemma ApplyEffect(apps: seq<Application>, rec: Application)
    ensures HasApplied(AfterApply(apps, rec), rec.candidateEmail, rec.jobId)
    ensures HasApplied(apps, rec.candidateEmail, rec.jobId) ==> AfterApply(apps, rec) == apps
    ensures !HasApplied(apps, rec.candidateEmail, rec.jobId) ==>
              && |AfterApply(apps, rec)| == |apps| + 1
              && AfterApply(apps, rec)[0] == rec
              && AfterApply(apps, rec)[1..] == apps
  {
    if !HasApplied(apps, rec.candidateEmail, rec.jobId) {
      assert AfterApply(apps, rec)[0] == rec;
    }
  }

  /** The duplicate check keeps one application per candidate and job. */
  lemma ApplyOnePerJob(apps: seq<Application>, rec: Application)
    requires OnePerJob(apps)
    ensures OnePerJob(AfterApply(apps, rec))
  {
    if !HasApplied(apps, rec.candidateEmail, rec.jobId) {
      forall x | x in apps
        ensures !(x.candidateEmail == rec.candidateEmail && x.jobId == rec.jobId)
      {
        var k :| 0 <= k < |apps| && apps[k] == x;
      }
      ConsOnePerJob(rec, apps);
    }
  }

  /** A second apply for the same candidate and job, whatever else its
      record holds, is refused: applying is idempotent. */
  lemma ApplyTwice(apps: seq<Application>, rec: Application, again: Application)
    requires again.candidateEmail == rec.candidateEmail && again.jobId == rec.jobId
    ensures AfterApply(AfterApply(apps, rec), again) == AfterApply(apps, rec)
  {
    ApplyEffect(apps, rec);
  }

  // ---------------------------------------------------------------------
  // Reject

  /** The rejected record: status `rejected`, one `application_rejected`
      entry by the poster in front of its log. */
  function Rejection(a: Application, poster: string, now: int): Application {
    a.(status := Rejected, log := [LogEntry(now, poster, ApplicationRejected, None, Some(RejectNote), None)] + a.log)
  }

  /** The collection after a reject: the first record for the key is
      rejected, whatever its status was; no record for the key, no change. */
  function AfterReject(apps: seq<Application>, poster: string, cand: string, job: string, now: int): seq<Application> {
    var i := MatchIndex(apps, poster, cand, job);
    if i < 0 then apps else apps[i := Rejection(apps[i], poster, now)]
  }

  /** A reject marks exactly the first record for the key, from any status,
      with one new log entry, and leaves every other record as it was; with
      no record for the key nothing changes. */
  lemma RejectEffect(apps: seq<Application>, poster: string, cand: string, job: string, now: int, i: nat)
    requires i < |apps| && IsFor(apps[i], poster, cand, job)
    requires forall j | 0 <= j < i :: !IsFor(apps[j], poster, cand, job)
    ensures |AfterReject(apps, poster, cand, job, now)| == |apps|
    ensures AfterReject(apps, poster, cand, job, now)[i]
              == apps[i].(status := Rejected, log := [LogEntry(now, poster, ApplicationRejected, None, Some(RejectNote), None)] + apps[i].log)
    ensures forall k | 0 <= k < |apps| && k != i :: AfterReject(apps, poster, cand, job, now)[k] == apps[k]
  {
    assert MatchIndex(apps, poster, cand, job) == i;
  }

  /** Without a record for the key a reject changes nothing. */
  lemma RejectNoMatch(apps: seq<Application>, poster: string, cand: string, job: string, now: int)
    requires forall j | 0 <= j < |apps| :: !IsFor(apps[j], poster, cand, job)
    ensures AfterReject(apps, poster, cand, job, now) == apps
  {
    assert MatchIndex(apps, poster, cand, job) < 0;
  }

  /** A reject keeps every record and key and only grows logs. */
  lemma RejectEvolves(apps: seq<Application>, poster: string, cand: string, job: string, now: int)
    ensures Evolved(apps, AfterReject(apps, poster, cand, job, now))
  {
    var i := MatchIndex(apps, poster, cand, job);
    if i >= 0 {
      PrependExtends(LogEntry(now, poster, ApplicationRejected, None, Some(RejectNote), None), apps[i].log);
      UpdateEvolves(apps, i, Rejection(apps[i], poster, now));
    } else {
      EvolvedSelf(apps);
    }
  }

  // ---------------------------------------------------------------------
  // Delete an application, and the cascade onto its offers

  /** `all.filter(x => !(x.candidateEmail===cand && x.jobId===jobId &&
      x.posterEmail===myEmail))`. */
  function AfterDelete(apps: seq<Application>, poster: string, cand: string, job: string): seq<Application> {
    Filter(apps, (a: Application) => !IsFor(a, poster, cand, job))
  }

  /** After a delete no record for the key is left, every other record is
      kept, and the kept ones are in their old order. */
  lemma DeleteEffect(apps: seq<Application>, poster: string, cand: string, job: string, a: Application)
    ensures forall b | b in AfterDelete(apps, poster, cand, job) :: !IsFor(b, poster, cand, job)
    ensures a in AfterDelete(apps, poster, cand, job) <==> a in apps && !IsFor(a, poster, cand, job)
    ensures IsSubsequence(AfterDelete(apps, poster, cand, job), apps)
  {
    FilterMembership(apps, (b: Application) => !IsFor(b, poster, cand, job), a);
  }

  /** A filter keeps one application per candidate and job. */
  lemma {:induction false} FilterOnePerJob(apps: seq<Application>, p: Application -> bool)
    requires OnePerJob(apps)
    ensures OnePerJob(Filter(apps, p))
  {
    if apps != [] {
      var tail := apps[1..];
      var rest := Filter(tail, p);
      TailOnePerJob(apps);
      FilterOnePerJob(tail, p);
      assert apps == [apps[0]] + tail;
      if p(apps[0]) {
        forall x | x in rest
          ensures !(x.candidateEmail == apps[0].candidateEmail && x.jobId == apps[0].jobId)
        {
          FilterMembership(tail, p, x);
        }
        ConsOnePerJob(apps[0], rest);
      }
    }
  }

  /** `{ ...o, status: 'cancelled' }` for an offer with the key, the offer
      itself otherwise. */
  function CancelIfFor(o: Offer, poster: string, cand: string, job: string): Offer {
    if OfferIsFor(o, poster, cand, job) then o.(status := Cancelled) else o
  }

  /** The offers after the cascade: every offer with the key is cancelled,
      whatever its status, `declined` included; the others are kept. */
  function AfterCascade(offers: seq<Offer>, poster: string, cand: string, job: string): (r: seq<Offer>)
    ensures |r| == |offers|
    ensures forall i | 0 <= i < |offers| :: r[i] == CancelIfFor(offers[i], poster, cand, job)
  {
    seq(|offers|, i requires 0 <= i < |offers| => CancelIfFor(offers[i], poster, cand, job))
  }

  /** After the cascade every offer with the key is cancelled, however it
      stood before, declined and accepted ones included; every other offer,
      and every field but the status, is as it was. Running it again
      changes nothing. */
  lemma CascadeEffect(offers: seq<Offer>, poster: string, cand: string, job: string)
    ensures forall i | 0 <= i < |offers| && OfferIsFor(offers[i], poster, cand, job) ::
              AfterCascade(offers, poster, cand, job)[i] == offers[i].(status := Cancelled)
    ensures forall i | 0 <= i < |offers| && !OfferIsFor(offers[i], poster, cand, job) ::
              AfterCascade(offers, poster, cand, job)[i] == offers[i]
    ensures forall o | o in AfterCascade(offers, poster, cand, job) && OfferIsFor(o, poster, cand, job) :: o.status == Cancelled
    ensures AfterCascade(AfterCascade(offers, poster, cand, job), poster, cand, job) == AfterCascade(offers, poster, cand, job)
  {
    var r := AfterCascade(offers, poster, cand, job);
    assert forall i | 0 <= i < |r| :: OfferIsFor(r[i], poster, cand, job) <==> OfferIsFor(offers[i], poster, cand, job);
  }

  /** The cascade changes something exactly when some offer has the key. */
  lemma CascadeChanges(offers: seq<Offer>, poster: string, cand: string, job: string)
    ensures (exists i | 0 <= i < |offers| :: OfferIsFor(offers[i], poster, cand, job))
            || AfterCascade(offers, poster, cand, job) == offers
  {
    if !exists i | 0 <= i < |offers| :: OfferIsFor(offers[i], poster, cand, job) {
      assert forall i | 0 <= i < |offers| :: AfterCascade(offers, poster, cand, job)[i] == offers[i];
    }
  }

  // ---------------------------------------------------------------------
  // Send an offer

  /** The offer the send button creates: status `sent`, the trimmed note,
      the id `createdAt`. */
  function NewOffer(poster: string, cand: string, job: string, price: int, noteText: string, createdAt: int): (o: Offer)
    ensures o.status == Sent && o.createdAt == createdAt && o.note == Trim(noteText)
    ensures OfferIsFor(o, poster, cand, job)
  {
    Offer(poster, cand, job, price, Trim(noteText), Sent, createdAt)
  }

  /** The offered record: status `offered`, linked to the offer, one
      `offer_sent` entry carrying its price and note in front of its log. */
  function Offering(a: Application, poster: string, o: Offer, ts: int): Application {
    a.(status := Offered, offerId := Some(o.createdAt),
       log := [LogEntry(ts, poster, OfferSent, Some(o.createdAt), Some(o.note), Some(o.price))] + a.log)
  }

  /** The offers after a send: a blank price or note leaves them as they
      are; otherwise the new offer goes in front, with or without a
      matching application. `price` is `Number(price.value)`; `priceText`,
      the field itself, is only checked for blankness. */
  function AfterSendOffers(offers: seq<Offer>, poster: string, cand: string, job: string, priceText: string, price: int, noteText: string, createdAt: int): seq<Offer> {
    if Blank(priceText) || Blank(noteText) then offers
    else [NewOffer(poster, cand, job, price, noteText, createdAt)] + offers
  }

  /** The applications after a send: with price and note filled in, the
      first record for the key becomes `offered`. */
  function AfterSendApps(apps: seq<Application>, poster: string, cand: string, job: string, priceText: string, price: int, noteText: string, createdAt: int, ts: int): seq<Application> {
    if Blank(priceText) || Blank(noteText) then apps
    else
      var i := MatchIndex(apps, poster, cand, job);
      if i < 0 then apps else apps[i := Offering(apps[i], poster, NewOffer(poster, cand, job, price, noteText, createdAt), ts)]
  }

  /** A blank price or note changes neither collection. Otherwise one offer
      with status `sent` is added in front of the old offers, even when no
      application has the key, at any price; without an application for the
      key the applications stay as they were. */
  lemma SendOfferEffect(apps: seq<Application>, offers: seq<Offer>, poster: string, cand: string, job: string, priceText: string, price: int, noteText: string, createdAt: int, ts: int)
    ensures Blank(priceText) || Blank(noteText) ==>
              AfterSendOffers(offers, poster, cand, job, priceText, price, noteText, createdAt) == offers
              && AfterSendApps(apps, poster, cand, job, priceText, price, noteText, createdAt, ts) == apps
    ensures !Blank(priceText) && !Blank(noteText) ==>
              var r := AfterSendOffers(offers, poster, cand, job, priceText, price, noteText, createdAt);
              && |r| == |offers| + 1 && r[1..] == offers
              && r[0].status == Sent && r[0].createdAt == createdAt && r[0].price == price && r[0].note == Trim(noteText)
              && OfferIsFor(r[0], poster, cand, job)
    ensures (forall j | 0 <= j < |apps| :: !IsFor(apps[j], poster, cand, job)) ==>
              AfterSendApps(apps, poster, cand, job, priceText, price, noteText, createdAt, ts) == apps
  {
    if !Blank(priceText) && !Blank(noteText) {
      var r := AfterSendOffers(offers, poster, cand, job, priceText, price, noteText, createdAt);
      assert r[1..] == offers;
    }
  }

  /** With price and note filled in, the first record for the key is
      marked `offered`, linked to the new offer, and logged with its price
      and note, the others left as they were. */
  lemma SendOfferAppEffect(apps: seq<Application>, poster: string, cand: string, job: string, priceText: string, price: int, noteText: string, createdAt: int, ts: int, i: nat)
    requires !Blank(priceText) && !Blank(noteText)
    requires i < |apps| && IsFor(apps[i], poster, cand, job)
    requires forall j | 0 <= j < i :: !IsFor(apps[j], poster, cand, job)
    ensures |AfterSendApps(apps, poster, cand, job, priceText, price, noteText, createdAt, ts)| == |apps|
    ensures AfterSendApps(apps, poster, cand, job, priceText, price, noteText, createdAt, ts)[i]
              == apps[i].(status := Offered, offerId := Some(createdAt),
                          log := [LogEntry(ts, poster, OfferSent, Some(createdAt), Some(Trim(noteText)), Some(price))] + apps[i].log)
    ensures forall k | 0 <= k < |apps| && k != i :: AfterSendApps(apps, poster, cand, job, priceText, price, noteText, createdAt, ts)[k] == apps[k]
  {
    assert MatchIndex(apps, poster, cand, job) == i;
  }

  /** A send keeps every record and key and only grows logs. */
  lemma SendOfferEvolves(apps: seq<Application>, poster: string, cand: string, job: string, priceText: string, price: int, noteText: string, createdAt: int, ts: int)
    ensures Evolved(apps, AfterSendApps(apps, poster, cand, job, priceText, price, noteText, createdAt, ts))
  {
    var i := MatchIndex(apps, poster, cand, job);
    if !Blank(priceText) && !Blank(noteText) && i >= 0 {
      var o := NewOffer(poster, cand, job, price, noteText, createdAt);
      PrependExtends(LogEntry(ts, poster, OfferSent, Some(o.createdAt), Some(o.note), Some(o.price)), apps[i].log);
      UpdateEvolves(apps, i, Offering(apps[i], poster, o, ts));
    } else {
      EvolvedSelf(apps);
    }
  }

  // ---------------------------------------------------------------------
  // Accept or decline an offer (the seeker's applied page)

  /** The seeker's answer. */
  datatype Answer = Accept | Decline

  function OfferStatusFor(d: Answer): OfferStatus {
    match d
    case Accept => Accepted
    case Decline => Declined
  }

  function AppStatusFor(d: Answer): AppStatus {
    match d
    case Accept => OfferedAccepted
    case Decline => OfferedDeclined
  }

  function ActionFor(d: Answer): Action {
    match d
    case Accept => OfferAccepted
    case Decline => OfferDeclined
  }

  /** `all.findIndex(o => o.createdAt===id && o.jobId===jobId &&
      o.candidateEmail===email)`. */
  function OfferIndex(offers: seq<Offer>, cand: string, id: int, job: string): (k: int)
    ensures -1 <= k < |offers|
    ensures k >= 0 ==> offers[k].createdAt == id && offers[k].jobId == job && offers[k].candidateEmail == cand
    ensures k >= 0 ==> forall j | 0 <= j < k :: !(offers[j].createdAt == id && offers[j].jobId == job && offers[j].candidateEmail == cand)
    ensures k < 0 <==> forall j | 0 <= j < |offers| :: !(offers[j].createdAt == id && offers[j].jobId == job && offers[j].candidateEmail == cand)
  {
    FirstIndex(offers, (o: Offer) => o.createdAt == id && o.jobId == job && o.candidateEmail == cand)
  }

  /** `!a.offerId`: no offer linked (a missing id, or 0). */
  predicate Unlinked(offerId: Option<int>) {
    offerId.None? || offerId == Some(0)
  }

  /** The application an answer updates: same job, candidate and poster as
      the offer, and linked to this offer or to none. */
  predicate Answers(a: Application, cand: string, job: string, poster: string, id: int) {
    a.jobId == job && a.candidateEmail == cand && a.posterEmail == poster && (a.offerId == Some(id) || Unlinked(a.offerId))
  }

  function AnswerIndex(apps: seq<Application>, cand: string, job: string, poster: string, id: int): (i: int)
    ensures -1 <= i < |apps|
    ensures i >= 0 ==> Answers(apps[i], cand, job, poster, id) && forall j | 0 <= j < i :: !Answers(apps[j], cand, job, poster, id)
    ensures i < 0 ==> forall j | 0 <= j < |apps| :: !Answers(apps[j], cand, job, poster, id)
  {
    FirstIndex(apps, (a: Application) => Answers(a, cand, job, poster, id))
  }

  /** The offers after an answer: the first offer with the id, job and
      candidate takes the answer's status, whatever it was (a cancelled or
      already answered offer included). */
  function AfterAnswerOffers(offers: seq<Offer>, cand: string, id: int, job: string, d: Answer): seq<Offer> {
    var k := OfferIndex(offers, cand, id, job);
    if k < 0 then offers else offers[k := offers[k].(status := OfferStatusFor(d))]
  }

  /** The answered record: `offered-accepted` or `offered-declined`, one
      entry by the seeker naming the offer in front of its log. */
  function Answered(a: Application, cand: string, id: int, d: Answer, ts: int): Application {
    a.(status := AppStatusFor(d), log := [LogEntry(ts, cand, ActionFor(d), Some(id), None, None)] + a.log)
  }

  /** The applications after an answer: when an offer matched, the first
      application answering it is updated; otherwise nothing changes. */
  function AfterAnswerApps(apps: seq<Application>, offers: seq<Offer>, cand: string, id: int, job: string, d: Answer, ts: int): seq<Application> {
    var k := OfferIndex(offers, cand, id, job);
    if k < 0 then apps
    else
      var i := AnswerIndex(apps, cand, job, offers[k].posterEmail, id);
      if i < 0 then apps else apps[i := Answered(apps[i], cand, id, d, ts)]
  }

  /** With no offer for the id, job and candidate, an answer changes
      neither collection. With one, the first such offer takes the answer's
      status and keeps every other field, and no other offer changes. */
  lemma AnswerOfferEffect(apps: seq<Application>, offers: seq<Offer>, cand: string, id: int, job: string, d: Answer, ts: int)
    ensures (forall j | 0 <= j < |offers| :: !(offers[j].createdAt == id && offers[j].jobId == job && offers[j].candidateEmail == cand)) ==>
              AfterAnswerOffers(offers, cand, id, job, d) == offers && AfterAnswerApps(apps, offers, cand, id, job, d, ts) == apps
    ensures var k := OfferIndex(offers, cand, id, job);
            k >= 0 ==>
              var r := AfterAnswerOffers(offers, cand, id, job, d);
              && |r| == |offers|
              && r[k] == offers[k].(status := OfferStatusFor(d))
              && forall j | 0 <= j < |offers| && j != k :: r[j] == offers[j]
    ensures var k := OfferIndex(offers, cand, id, job);
            k >= 0 && AnswerIndex(apps, cand, job, offers[k].posterEmail, id) < 0 ==>
              AfterAnswerApps(apps, offers, cand, id, job, d, ts) == apps
  {
  }

  /** When an offer matched, the first application answering it takes the
      answer's status and one new log entry, and no other application
      changes. */
  lemma AnswerAppEffect(apps: seq<Application>, offers: seq<Offer>, cand: string, id: int, job: string, d: Answer, ts: int, k: nat, i: nat)
    requires k < |offers| && OfferIndex(offers, cand, id, job) == k
    requires i < |apps| && Answers(apps[i], cand, job, offers[k].posterEmail, id)
    requires forall j | 0 <= j < i :: !Answers(apps[j], cand, job, offers[k].posterEmail, id)
    ensures |AfterAnswerApps(apps, offers, cand, id, job, d, ts)| == |apps|
    ensures AfterAnswerApps(apps, offers, cand, id, job, d, ts)[i]
              == apps[i].(status := AppStatusFor(d), log := [LogEntry(ts, cand, ActionFor(d), Some(id), None, None)] + apps[i].log)
    ensures forall j | 0 <= j < |apps| && j != i :: AfterAnswerApps(apps, offers, cand, id, job, d, ts)[j] == apps[j]
  {
    assert AnswerIndex(apps, cand, job, offers[k].posterEmail, id) == i;
  }

  /** An answer keeps every record and key and only grows logs. */
  lemma AnswerEvolves(apps: seq<Application>, offers: seq<Offer>, cand: string, id: int, job: string, d: Answer, ts: int)
    ensures Evolved(apps, AfterAnswerApps(apps, offers, cand, id, job, d, ts))
  {
    var k := OfferIndex(offers, cand, id, job);
    var i := if k < 0 then -1 else AnswerIndex(apps, cand, job, offers[k].posterEmail, id);
    if i >= 0 {
      PrependExtends(LogEntry(ts, cand, ActionFor(d), Some(id), None, None), apps[i].log);
      UpdateEvolves(apps, i, Answered(apps[i], cand, id, d, ts));
    } else {
      EvolvedSelf(apps);
    }
  }

  // ---------------------------------------------------------------------
  // Whole scenarios

  /** After a send that found its application at `i`, that record is the
      first to answer the new offer. */
  lemma SendLinks(apps: seq<Application>, poster: string, cand: string, job: string, priceText: string, price: int, noteText: string, createdAt: int, ts: int, i: nat)
    requires !Blank(priceText) && !Blank(noteText)
    requires i < |apps| && MatchIndex(apps, poster, cand, job) == i
    ensures var apps1 := AfterSendApps(apps, poster, cand, job, priceText, price, noteText, createdAt, ts);
            && |apps1| == |apps|
            && apps1[i] == Offering(apps[i], poster, NewOffer(poster, cand, job, price, noteText, createdAt), ts)
            && Answers(apps1[i], cand, job, poster, createdAt)
            && forall j | 0 <= j < i :: !Answers(apps1[j], cand, job, poster, createdAt)
  {
    var apps1 := AfterSendApps(apps, poster, cand, job, priceText, price, noteText, createdAt, ts);
    assert forall j | 0 <= j < i :: apps1[j] == apps[j] && !IsFor(apps[j], poster, cand, job);
  }

  /** Send, then accept the offer just sent: the new offer is `accepted`,
      and the first application for the key is `offered-accepted`, linked
      to the offer, with the accept entry on top of the send entry. */
  lemma SendThenAccept(apps: seq<Application>, offers: seq<Offer>, poster: string, cand: string, job: string, priceText: string, price: int, noteText: string, createdAt: int, ts: int, ts2: int, i: nat)
    requires !Blank(priceText) && !Blank(noteText)
    requires i < |apps| && MatchIndex(apps, poster, cand, job) == i
    ensures var offers1 := AfterSendOffers(offers, poster, cand, job, priceText, price, noteText, createdAt);
            var apps1 := AfterSendApps(apps, poster, cand, job, priceText, price, noteText, createdAt, ts);
            var offers2 := AfterAnswerOffers(offers1, cand, createdAt, job, Accept);
            var apps2 := AfterAnswerApps(apps1, offers1, cand, createdAt, job, Accept, ts2);
            && |offers2| > 0 && offers2[0].status == Accepted && offers2[0].price == price
            && |apps2| == |apps|
            && apps2[i].status == OfferedAccepted && apps2[i].offerId == Some(createdAt)
            && |apps2[i].log| == |apps[i].log| + 2
            && apps2[i].log[0].action == OfferAccepted && apps2[i].log[1].action == OfferSent
            && apps2[i].log[2..] == apps[i].log
  {
    var offers1 := AfterSendOffers(offers, poster, cand, job, priceText, price, noteText, createdAt);
    var apps1 := AfterSendApps(apps, poster, cand, job, priceText, price, noteText, createdAt, ts);
    assert OfferIndex(offers1, cand, createdAt, job) == 0;
    SendLinks(apps, poster, cand, job, priceText, price, noteText, createdAt, ts, i);
    AnswerAppEffect(apps1, offers1, cand, createdAt, job, Accept, ts2, 0, i);
    var log2 := AfterAnswerApps(apps1, offers1, cand, createdAt, job, Accept, ts2)[i].log;
    assert log2[1..] == apps1[i].log;
    assert apps1[i].log[1..] == apps[i].log;
    assert log2[2..] == apps1[i].log[1..];
  }

  /** Deleting the application after its offer was accepted removes it and
      cancels the accepted offer. */
  lemma AcceptThenDelete(apps: seq<Application>, offers: seq<Offer>, poster: string, cand: string, job: string, id: int)
    requires OfferIndex(offers, cand, id, job) >= 0
    requires offers[OfferIndex(offers, cand, id, job)].posterEmail == poster
    ensures var k := OfferIndex(offers, cand, id, job);
            var offers2 := AfterCascade(AfterAnswerOffers(offers, cand, id, job, Accept), poster, cand, job);
            && AfterAnswerOffers(offers, cand, id, job, Accept)[k].status == Accepted
            && offers2[k].status == Cancelled
            && forall a | a in AfterDelete(apps, poster, cand, job) :: !IsFor(a, poster, cand, job)
  {
    var k := OfferIndex(offers, cand, id, job);
    var o := AfterAnswerOffers(offers, cand, id, job, Accept);
    assert OfferIsFor(o[k], poster, cand, job);
    DeleteEffect(apps, poster, cand, job, NewApplication(job, "", poster, cand, "", None, None, 0));
  }
}
