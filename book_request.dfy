/**
  * The book request form: the submit-time validation chain (title, then
  * author, then reason), the reset to an empty form after the service
  * accepts the request, and the error shown, with the form kept, when the
  * service refuses it.
  */
module BookRequest {
  import opened Text
  import opened Wrappers

  datatype RequestForm = RequestForm(
    bookTitle: string,
    author: string,
    publisher: string,
    isbn: string,
    edition: string,
    category: string,
    reasonForRequest: string)

  /** The form's initial state, and what a successful submit resets it to. */
  const EmptyForm: RequestForm := RequestForm("", "", "", "", "", "", "")

  /**
    * What the request service answers: acceptance, or a refusal carrying the
    * server's message, if it sent one.
    */
  datatype ServiceReply = Accepted | Refused(message: Option<string>)

  /** The message shown for a refusal: the server's, or the page's default when it sent none. */
  function FailureMessage(message: Option<string>): (m: string)
    ensures m != ""
    ensures message.Some? && message.value != "" ==> m == message.value
    ensures message.None? || message.value == "" ==> m == "Failed to submit book request"
  {
    if message.Some? && message.value != "" then message.value else "Failed to submit book request"
  }

  /**
    * A submit either stops with the first validation error (nothing sent), or
    * sends the request and then either continues with a fresh form or shows
    * the service's error with the form as it was.
    */
  datatype Outcome =
    | Rejected(error: string)
    | Sent(request: RequestForm, next: RequestForm)
    | Failed(request: RequestForm, error: string, next: RequestForm)

  /**
    * `handleSubmit`: the first blank required field (after trimming) stops
    * the submit with its message; otherwise the form is sent, and `reply` is
    * how the service answered.
    */
  function Submit(form: RequestForm, reply: ServiceReply): (o: Outcome)
    ensures o.Rejected? <==> IsBlank(form.bookTitle) || IsBlank(form.author) || IsBlank(form.reasonForRequest)
    ensures o == Rejected("Book title is required") <==> IsBlank(form.bookTitle)
    ensures o == Rejected("Author name is required") <==> !IsBlank(form.bookTitle) && IsBlank(form.author)
    ensures o == Rejected("Please provide a reason for your request") <==>
      !IsBlank(form.bookTitle) && !IsBlank(form.author) && IsBlank(form.reasonForRequest)
    ensures o.Sent? <==> !o.Rejected? && reply.Accepted?
    ensures o.Failed? <==> !o.Rejected? && reply.Refused?
    ensures o.Sent? ==> o.request == form && o.next == EmptyForm
    ensures o.Failed? ==> o.request == form && o.next == form && o.error == FailureMessage(reply.message)
  {
    TrimEmptyIffBlank(form.bookTitle);
    TrimEmptyIffBlank(form.author);
    TrimEmptyIffBlank(form.reasonForRequest);
    if Trim(form.bookTitle) == "" then Rejected("Book title is required")
    else if Trim(form.author) == "" then Rejected("Author name is required")
    else if Trim(form.reasonForRequest) == "" then Rejected("Please provide a reason for your request")
    else if reply.Refused? then Failed(form, FailureMessage(reply.message), form)
    else Sent(form, RequestForm("", "", "", "", "", "", ""))
  }

  /** The optional fields are never looked at: changing them changes neither the verdict nor the message. */
  lemma OptionalFieldsNotValidated(form: RequestForm, reply: ServiceReply, publisher: string, isbn: string, edition: string, category: string)
    ensures
      var other := form.(publisher := publisher, isbn := isbn, edition := edition, category := category);
      Submit(other, reply).Rejected? == Submit(form, reply).Rejected?
      && (Submit(form, reply).Rejected? ==> Submit(other, reply) == Submit(form, reply))
  {
  }

  /** The fresh form after a successful submit would itself be rejected for its missing title. */
  lemma ResetFormIsRejected(form: RequestForm, reply: ServiceReply, again: ServiceReply)
    requires Submit(form, reply).Sent?
    ensures Submit(Submit(form, reply).next, again) == Rejected("Book title is required")
  {
  }

  /** After a refusal the kept form can be submitted again unchanged, and is sent again. */
  lemma RefusedFormResubmits(form: RequestForm, message: Option<string>, again: ServiceReply)
    requires Submit(form, Refused(message)).Failed?
    ensures Submit(Submit(form, Refused(message)).next, again).request == form
  {
  }
}
