/** The stored workflow state of script.js, `tcv_applications` and
    `tcv_offers`, and the event handlers that change it. Each handler reads
    the collection, finds a record by its key, changes it or adds one in
    front, and writes the collection back; here that is a method on the two
    fields, whose new state is the matching function of the Workflow
    module. */
module Board {
  import opened Seqs
  import opened Text
  import opened Workflow
  import Jobs
  import PdfMap

  /** What the apply button ends with: a request to sign in, the duplicate
      message, or the stored application. */
  datatype ApplyOutcome = NeedsLogin | AlreadyApplied | Submitted

  /** The application the apply button builds for `email`: the job's
      poster, the stored PDF, the stored name or the address's name, and
      the title on the page or `Công việc`. */
  function ApplicationFor(email: string, storedName: string, pdfs: PdfMap.PdfStore, cv: Option<string>, jobs: seq<Jobs.Job>, jobId: string, titleText: string, now: int): (a: Application)
    ensures a.candidateEmail == email && a.jobId == jobId && a.status == Applied && a.log == []
    ensures a.posterEmail == Jobs.PosterEmailOf(Jobs.FindJob(jobs, jobId))
    ensures a.cvPdf == PdfMap.Load(pdfs, email) && a.candidateCv == cv
    ensures a.candidateName == if storedName != [] then storedName else EmailName(email)
    ensures email != [] ==> a.candidateName != []
    ensures a.jobTitle == if titleText != [] then titleText else "Công việc"
    ensures a.offerId == None && a.createdAt == now
  {
    var name := if storedName != [] then storedName else EmailName(email);
    var title := if titleText != [] then titleText else "Công việc";
    NewApplication(jobId, title, Jobs.PosterEmailOf(Jobs.FindJob(jobs, jobId)), email, name, cv, PdfMap.Load(pdfs, email), now)
  }

  class Store {
    var applications: seq<Application>
    var offers: seq<Offer>

    /** At most one application per candidate and job. */
    ghost predicate Valid()
      reads this
    {
      OnePerJob(applications)
    }

    constructor ()
      ensures Valid() && applications == [] && offers == []
    {
      applications := [];
      offers := [];
    }

    /** The apply button of the job detail page. Without a signed-in
        address nothing is stored; a second application for the same job
        is refused; otherwise the new record goes in front. */
    method Apply(email: string, storedName: string, pdfs: PdfMap.PdfStore, cv: Option<string>, jobs: seq<Jobs.Job>, jobId: string, titleText: string, now: int) returns (outcome: ApplyOutcome)
      requires Valid()
      modifies this
      ensures Valid() && offers == old(offers)
      ensures email == [] ==> outcome == NeedsLogin && applications == old(applications)
      ensures email != [] ==> applications == AfterApply(old(applications), ApplicationFor(email, storedName, pdfs, cv, jobs, jobId, titleText, now))
      ensures outcome == Submitted <==> email != [] && !HasApplied(old(applications), email, jobId)
      ensures outcome == AlreadyApplied <==> email != [] && HasApplied(old(applications), email, jobId)
    {
      if email == [] {
        return NeedsLogin;
      }
      var rec := ApplicationFor(email, storedName, pdfs, cv, jobs, jobId, titleText, now);
      var dup := FirstIndex(applications, (a: Application) => a.candidateEmail == email && a.jobId == jobId);
      if dup >= 0 {
        return AlreadyApplied;
      }
      ApplyOnePerJob(applications, rec);
      applications := [rec] + applications;
      outcome := Submitted;
    }

    /** The reject button of the poster's application list. */
    method Reject(poster: string, cand: string, job: string, now: int)
      requires Valid()
      modifies this
      ensures Valid() && offers == old(offers)
      ensures applications == AfterReject(old(applications), poster, cand, job, now)
    {
      RejectEvolves(applications, poster, cand, job, now);
      EvolvedOnePerJob(applications, AfterReject(applications, poster, cand, job, now));
      var idx := MatchIndex(applications, poster, cand, job);
      if idx > -1 {
        applications := applications[idx := Rejection(applications[idx], poster, now)];
      }
    }

    /** The delete button: the application goes, and every offer with the
        same key is cancelled by one pass over the offers that notes
        whether anything changed and writes the offers back only then. */
    method DeleteApplication(poster: string, cand: string, job: string)
      requires Valid()
      modifies this
      ensures Valid()
      ensures applications == AfterDelete(old(applications), poster, cand, job)
      ensures offers == AfterCascade(old(offers), poster, cand, job)
    {
      FilterOnePerJob(applications, (a: Application) => !IsFor(a, poster, cand, job));
      applications := AfterDelete(applications, poster, cand, job);
      var updated: seq<Offer> := [];
      var changed := false;
      var i := 0;
      while i < |offers|
        invariant 0 <= i <= |offers|
        invariant |updated| == i
        invariant forall j | 0 <= j < i :: updated[j] == CancelIfFor(offers[j], poster, cand, job)
        invariant changed <==> exists j | 0 <= j < i :: OfferIsFor(offers[j], poster, cand, job)
      {
        var o := offers[i];
        if o.candidateEmail == cand && o.jobId == job && o.posterEmail == poster {
          changed := true;
          updated := updated + [o.(status := Cancelled)];
        } else {
          updated := updated + [o];
        }
        i := i + 1;
      }
      CascadeChanges(offers, poster, cand, job);
      if changed {
        offers := updated;
      }
    }

    /** The send button of the offer dialog: nothing happens while the
        price or the note is blank; otherwise the offer is stored, and the
        first application with the key, if any, is marked offered. */
    method SendOffer(poster: string, cand: string, job: string, priceText: string, price: int, noteText: string, createdAt: int, ts: int)
      requires Valid()
      modifies this
      ensures Valid()
      ensures offers == AfterSendOffers(old(offers), poster, cand, job, priceText, price, noteText, createdAt)
      ensures applications == AfterSendApps(old(applications), poster, cand, job, priceText, price, noteText, createdAt, ts)
    {
      TrimEmptyIffBlank(priceText);
      TrimEmptyIffBlank(noteText);
      if Trim(priceText) == [] || Trim(noteText) == [] {
        return;
      }
      SendOfferEvolves(applications, poster, cand, job, priceText, price, noteText, createdAt, ts);
      EvolvedOnePerJob(applications, AfterSendApps(applications, poster, cand, job, priceText, price, noteText, createdAt, ts));
      var offer := Offer(poster, cand, job, price, Trim(noteText), Sent, createdAt);
      offers := [offer] + offers;
      var idx := MatchIndex(applications, poster, cand, job);
      if idx > -1 {
        applications := applications[idx := Offering(applications[idx], poster, offer, ts)];
      }
    }

    /** The accept or decline button of the seeker's applied page. */
    method AnswerOffer(cand: string, id: int, job: string, d: Answer, ts: int)
      requires Valid()
      modifies this
      ensures Valid()
      ensures offers == AfterAnswerOffers(old(offers), cand, id, job, d)
      ensures applications == AfterAnswerApps(old(applications), old(offers), cand, id, job, d, ts)
    {
      AnswerEvolves(applications, offers, cand, id, job, d, ts);
      EvolvedOnePerJob(applications, AfterAnswerApps(applications, offers, cand, id, job, d, ts));
      var idx := OfferIndex(offers, cand, id, job);
      if idx > -1 {
        offers := offers[idx := offers[idx].(status := OfferStatusFor(d))];
        var appIdx := AnswerIndex(applications, cand, job, offers[idx].posterEmail, id);
        if appIdx > -1 {
          applications := applications[appIdx := Answered(applications[appIdx], cand, id, d, ts)];
        }
      }
    }
  }
}
