/** The contacts presenter: second checkout step, e-mail and phone. Its
    private validators use the same two patterns as the order validators,
    so the model calls those. */
module ContactsPresenter {
  import opened Wrappers
  import opened Text
  import opened OrderModel
  import opened OrderValidation
  import opened Events

  /** The order, the raw e-mail and phone inputs, whether submit is enabled,
      and whether `init` has wired the listeners. */
  datatype Presenter = Presenter(order: Order, email: string, phone: string, submitEnabled: bool, mounted: bool)

  /** Both trimmed inputs pass their patterns. */
  predicate ContactsValid(email: string, phone: string) {
    ValidateEmail(Trim(email)) && ValidatePhone(Trim(phone))
  }

  /** `init`: wires the listeners once; a second call returns at once. */
  function Init(s: Presenter): (r: Presenter)
    ensures r.mounted
    ensures r == s.(mounted := true)
    ensures s.mounted ==> r == s
  {
    if s.mounted then s else s.(mounted := true)
  }

  /** An input event on either field, after which the fields hold `email`
      and `phone`: submit is enabled exactly when both trimmed values pass. */
  function OnInput(s: Presenter, email: string, phone: string): (r: Presenter)
    ensures !s.mounted ==> r == s.(email := email, phone := phone)
    ensures s.mounted ==> (r.submitEnabled <==>
              EmailPattern(Trim(email)) && ValidatePhone(Trim(phone)))
    ensures r.order == s.order && r.email == email && r.phone == phone && r.mounted == s.mounted
  {
    if !s.mounted then s.(email := email, phone := phone)
    else s.(email := email, phone := phone, submitEnabled := ContactsValid(email, phone))
  }

  /** A submit click. Before `init` there is no listener, and a click on a
      disabled button never reaches it. Otherwise invalid contacts disable
      submit and change nothing else; valid ones are stored trimmed and
      passed to the completion callback. */
  function OnSubmit(s: Presenter): (r: Step<Presenter>)
    ensures !s.mounted || !s.submitEnabled ==> r == Step(s, [])
    ensures s.mounted && s.submitEnabled && !ContactsValid(s.email, s.phone) ==>
              r == Step(s.(submitEnabled := false), [])
    ensures s.mounted && s.submitEnabled && ContactsValid(s.email, s.phone) ==>
              && r.state == s.(order := SetContacts(s.order, Trim(s.email), Trim(s.phone)))
              && r.emitted == [ContactsStepDone(Trim(s.email), Trim(s.phone))]
  {
    if !s.mounted || !s.submitEnabled then Step(s, [])
    else if !ContactsValid(s.email, s.phone) then Step(s.(submitEnabled := false), [])
    else
      var e, p := Trim(s.email), Trim(s.phone);
      Step(s.(order := SetContacts(s.order, e, p)), [ContactsStepDone(e, p)])
  }

  /** The button reflects the inputs. */
  predicate Consistent(s: Presenter) {
    s.mounted ==> (s.submitEnabled <==> ContactsValid(s.email, s.phone))
  }

  /** Input events and submits keep the button in step with the inputs. */
  lemma HandlersKeepConsistent(s: Presenter, email: string, phone: string)
    requires Consistent(s)
    ensures Consistent(OnInput(s, email, phone))
    ensures Consistent(OnSubmit(s).state)
  {
  }

  /** A submit proceeds only from an enabled button; while the button is in
      step with the inputs it proceeds exactly when enabled, and what it
      passes on is what it stored in the order. */
  lemma SubmitProceedsIffEnabled(s: Presenter)
    requires s.mounted
    ensures |OnSubmit(s).emitted| > 0 ==> s.submitEnabled
    ensures Consistent(s) ==> (|OnSubmit(s).emitted| > 0 <==> s.submitEnabled)
    ensures |OnSubmit(s).emitted| > 0 ==>
              var d := OnSubmit(s).emitted[0];
              OnSubmit(s).state.order.email == Some(d.email) && OnSubmit(s).state.order.phone == Some(d.phone)
  {
  }

  /** Valid contacts behind a disabled button: the click goes nowhere. */
  lemma DisabledSubmitIgnored()
    ensures OnSubmit(Presenter(New(), "a@b.co", "12345678901", false, true)) ==
              Step(Presenter(New(), "a@b.co", "12345678901", false, true), [])
  {
  }
}
