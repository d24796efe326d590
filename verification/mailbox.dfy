/** The email-gated download of `Bandcamper._get_download_url_from_email`:
    the form posted to the artist's `email_download` endpoint and the
    bounded wait for Bandcamp's email. The mailbox service, the clock and
    the HTML of the email are inputs: each check of the inbox is the list
    of messages the Bandcamp sender filter let through, and each message is
    reduced to the target of its first link. */
module Mailbox {
  import opened Wrappers
  import opened Urls

  /** The default number of one-second waits before giving up. */
  const DefaultTimeout := 60

  /** A message from Bandcamp: the `href` of its first `<a>`, if any. */
  datatype Message = Message(firstLink: Option<string>)

  datatype EmailError =
    | SubmissionRejected
    | MailTimeout
    | NoLink

  /** The form posted to ask for the download link. */
  datatype EmailForm = EmailForm(
    encodingName: string,
    itemId: int,
    itemType: string,
    address: string,
    country: string,
    postcode: string)

  /** The endpoint the form goes to: `email_download` on the host of the
      release URL, always over https. */
  function EmailEndpoint(url: string): string {
    "https://" + Parse(url).netloc + "/email_download"
  }

  /** The endpoint of a well-formed release URL keeps its host and drops
      its scheme, path, query and fragment. */
  lemma EmailEndpointOfRelease(u: Url)
    requires WellFormed(u)
    ensures EmailEndpoint(Unsplit(u)) == "https://" + u.netloc + "/email_download"
  {
    ParseUnsplit(u);
  }

  /** The form with the defaults `_get_download_url_from_email` uses. */
  function DefaultForm(itemId: int, itemType: string, address: string): (r: EmailForm)
    ensures r.encodingName == "none" && r.country == "US" && r.postcode == "0"
    ensures r.itemId == itemId && r.itemType == itemType && r.address == address
  {
    EmailForm("none", itemId, itemType, address, "US", "0")
  }

  /** The inbox has stayed empty for the first `n` checks. */
  ghost predicate EmptyBefore(inbox: nat -> seq<Message>, n: nat) {
    forall k: nat :: k < n ==> inbox(k) == []
  }

  /** The number of checks a poll with this timeout may make at most. */
  function MaxChecks(timeout: int): (r: nat)
    ensures timeout >= 0 ==> r == timeout + 1
    ensures timeout < 0 ==> r == 0
  {
    if timeout < 0 then 0 else timeout + 1
  }

  /** The index of the first non-empty check among the first `limit`
      checks, searching from `k`. */
  function FirstDelivery(inbox: nat -> seq<Message>, k: nat, limit: nat): (r: Option<nat>)
    ensures r.Some? ==> k <= r.value < limit && inbox(r.value) != []
                        && forall j: nat :: k <= j < r.value ==> inbox(j) == []
    ensures r.None? ==> forall j: nat :: k <= j < limit ==> inbox(j) == []
    decreases limit - k
  {
    if k >= limit then None
    else if inbox(k) != [] then Some(k)
    else FirstDelivery(inbox, k + 1, limit)
  }

  /** The wait for the email: before each check the seconds already slept
      are compared with the timeout, then one second is slept and the inbox
      checked; the first message's link is the answer. Returns the result
      and the number of checks made. */
  method PollInbox(timeout: int, inbox: nat -> seq<Message>) returns (r: Result<string, EmailError>, checks: nat)
    ensures checks <= MaxChecks(timeout)
    ensures r.Failure? && r.error == MailTimeout <==> checks == MaxChecks(timeout) && EmptyBefore(inbox, checks)
    ensures r.Failure? && r.error == MailTimeout ==> FirstDelivery(inbox, 0, MaxChecks(timeout)).None?
    ensures r.Success? || r.error == NoLink ==> 0 < checks && EmptyBefore(inbox, checks - 1) && inbox(checks - 1) != []
    ensures r.Success? || r.error == NoLink ==> FirstDelivery(inbox, 0, MaxChecks(timeout)) == Some(checks - 1)
    ensures r.Success? <==> 0 < checks && inbox(checks - 1) != [] && inbox(checks - 1)[0].firstLink.Some?
    ensures r.Success? ==> r.value == inbox(checks - 1)[0].firstLink.value
    ensures r.Failure? ==> r.error != SubmissionRejected
    ensures r == Failure(MailTimeout) <==> FirstDelivery(inbox, 0, MaxChecks(timeout)).None?
    ensures FirstDelivery(inbox, 0, MaxChecks(timeout)).Some? ==> checks == FirstDelivery(inbox, 0, MaxChecks(timeout)).value + 1
    ensures r.Success? <==> Delivered(inbox, timeout).Some?
    ensures r.Success? ==> r.value == Delivered(inbox, timeout).value
  {
    var msgs: seq<Message> := [];
    var slept: nat := 0;
    while msgs == []
      invariant slept <= MaxChecks(timeout)
      invariant msgs == [] ==> EmptyBefore(inbox, slept)
      invariant msgs != [] ==> 0 < slept && EmptyBefore(inbox, slept - 1) && msgs == inbox(slept - 1)
      invariant FirstDelivery(inbox, 0, MaxChecks(timeout)) == FirstDelivery(inbox, slept, MaxChecks(timeout)) || msgs != []
      decreases MaxChecks(timeout) - slept, if msgs == [] then 1 else 0
    {
      if slept > timeout {
        return Failure(MailTimeout), slept;
      }
      slept := slept + 1;
      msgs := inbox(slept - 1);
    }
    checks := slept;
    assert FirstDelivery(inbox, checks - 1, MaxChecks(timeout)) == Some(checks - 1);
    match msgs[0].firstLink
    case None => r := Failure(NoLink);
    case Some(link) => r := Success(link);
  }

  /** The link the first delivered message carries, if a message comes
      within the checks allowed and has a link. */
  ghost function Delivered(inbox: nat -> seq<Message>, timeout: int): Option<string> {
    match FirstDelivery(inbox, 0, MaxChecks(timeout))
    case None => None
    case Some(k) => inbox(k)[0].firstLink
  }

  /** `_get_download_url_from_email` from the form's reply on: a rejected
      submission fails before the inbox is looked at; otherwise the poll
      decides. */
  method EmailDownloadLink(submissionOk: bool, timeout: int, inbox: nat -> seq<Message>)
    returns (r: Result<string, EmailError>, checks: nat)
    ensures !submissionOk ==> r == Failure(SubmissionRejected) && checks == 0
    ensures submissionOk ==> checks <= MaxChecks(timeout) && (r.Failure? ==> r.error != SubmissionRejected)
    ensures submissionOk && r.Success? ==>
              && 0 < checks && inbox(checks - 1) != []
              && inbox(checks - 1)[0].firstLink == Some(r.value)
              && FirstDelivery(inbox, 0, MaxChecks(timeout)) == Some(checks - 1)
    ensures submissionOk ==> (r.Success? <==> Delivered(inbox, timeout).Some?)
    ensures submissionOk && r.Success? ==> r.value == Delivered(inbox, timeout).value
    ensures submissionOk ==> (r == Failure(MailTimeout) <==> FirstDelivery(inbox, 0, MaxChecks(timeout)).None?)
    ensures submissionOk && FirstDelivery(inbox, 0, MaxChecks(timeout)).Some? ==>
              checks == FirstDelivery(inbox, 0, MaxChecks(timeout)).value + 1
  {
    if !submissionOk {
      return Failure(SubmissionRejected), 0;
    }
    r, checks := PollInbox(timeout, inbox);
  }
}
