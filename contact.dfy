/** The contact section: four form fields, one of them a hidden honeypot,
    and the submit status shown under the form. */
module Contact {
  import opened Catalog

  /** `status`: "idle", "submitting", "success" or "error". */
  datatype Status = Idle | Submitting | Success | Error

  /** `form`: the JSON body that is posted. `gotcha` is the honeypot
      field `_gotcha`, hidden from people and filled in by bots. */
  datatype Fields = Fields(name: string, email: string, message: string, gotcha: string)

  function EmptyFields(): Fields
  {
    Fields("", "", "", "")
  }

  /** How the POST to the form endpoint settled: a response with `res.ok`,
      a response without it, or a rejected `fetch`. */
  datatype Response = Ok | NotOk | Threw

  class ContactSection {
    var status: Status
    var form: Fields

    constructor ()
      ensures status == Idle && form == EmptyFields()
    {
      status := Idle;
      form := EmptyFields();
    }

    /** The `onChange` of each input: `setForm((f) => ({ ...f, field: value }))`.
        Editing never changes `status`. */
    method EditName(value: string)
      modifies this
      ensures form == old(form).(name := value) && status == old(status)
    {
      form := form.(name := value);
    }

    method EditEmail(value: string)
      modifies this
      ensures form == old(form).(email := value) && status == old(status)
    {
      form := form.(email := value);
    }

    method EditMessage(value: string)
      modifies this
      ensures form == old(form).(message := value) && status == old(status)
    {
      form := form.(message := value);
    }

    method EditGotcha(value: string)
      modifies this
      ensures form == old(form).(gotcha := value) && status == old(status)
    {
      form := form.(gotcha := value);
    }

    /** The send button is disabled while a submission is outstanding. */
    predicate SendDisabled()
      reads this
    {
      status == Submitting
    }

    /** `handleSubmit` up to the `await`: a filled honeypot returns at once,
        leaving everything as it was and posting nothing; otherwise the status
        becomes submitting and the current form is the request body. */
    method BeginSubmit() returns (request: Option<Fields>)
      modifies this
      ensures form == old(form)
      ensures old(form).gotcha != "" ==> request == None && status == old(status)
      ensures old(form).gotcha == "" ==> request == Some(old(form)) && status == Submitting
    {
      if form.gotcha != "" {
        return None;
      }
      status := Submitting;
      request := Some(form);
    }

    /** `handleSubmit` after the `await`: an ok response sets success and
        clears all four fields; a non-ok response (thrown as "Network error")
        or a rejected `fetch` sets error and keeps the form for another try. */
    method CompleteSubmit(response: Response)
      modifies this
      ensures response == Ok ==> status == Success && form == EmptyFields()
      ensures response != Ok ==> status == Error && form == old(form)
    {
      if response == Ok {
        status := Success;
        form := EmptyFields();
      } else {
        status := Error;
      }
    }

    /** The whole submit handler when no edit happens while the request is
        outstanding. */
    method HandleSubmit(response: Response) returns (request: Option<Fields>)
      modifies this
      ensures old(form).gotcha != "" ==> request == None && status == old(status) && form == old(form)
      ensures old(form).gotcha == "" ==> request == Some(old(form))
      ensures old(form).gotcha == "" && response == Ok ==> status == Success && form == EmptyFields()
      ensures old(form).gotcha == "" && response != Ok ==> status == Error && form == old(form)
    {
      request := BeginSubmit();
      if request.Some? {
        CompleteSubmit(response);
      }
    }
  }

  /** A bot that fills the honeypot of a fresh form posts nothing and leaves
      the status idle. */
  method HoneypotScenario(bot: string) returns (status: Status, request: Option<Fields>)
    requires bot != ""
    ensures status == Idle && request == None
  {
    var c := new ContactSection();
    c.EditName("Ana");
    c.EditGotcha(bot);
    request := c.HandleSubmit(Ok);
    status := c.status;
  }

  /** The send button while a message goes out: enabled on a fresh form,
      disabled once the request is outstanding, and enabled again when it
      settles, whatever the outcome. */
  method SendButtonScenario(name: string, response: Response)
    returns (before: bool, during: bool, after: bool)
    ensures !before && during && !after
  {
    var c := new ContactSection();
    c.EditName(name);
    before := c.SendDisabled();
    var request := c.BeginSubmit();
    during := c.SendDisabled();
    c.CompleteSubmit(response);
    after := c.SendDisabled();
  }

  /** A person's successful send posts what they typed and clears the form;
      a failed send keeps it for another try. */
  method SendScenario(name: string, email: string, message: string, response: Response)
    returns (status: Status, form: Fields, request: Option<Fields>)
    ensures request == Some(Fields(name, email, message, ""))
    ensures response == Ok ==> status == Success && form == EmptyFields()
    ensures response != Ok ==> status == Error && form == Fields(name, email, message, "")
  {
    var c := new ContactSection();
    c.EditName(name);
    c.EditEmail(email);
    c.EditMessage(message);
    request := c.HandleSubmit(response);
    status, form := c.status, c.form;
  }
}
