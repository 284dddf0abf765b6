/**
 * The contact form's controller: the per-field error display, validation of
 * one field, the submit handler that validates every field and either starts
 * the simulated send or focuses the first field in error, the completion of
 * the send, and the check that warns before leaving a page with typed data.
 */
module ContactForm {
  import opened Wrappers
  import opened Text
  import opened Rules

  /** The declaration order of the fields, which the submit handler follows. */
  const FieldOrder: seq<FieldName> := [Nombre, Correo, Asunto, Descripcion]

  /** The position of a field in the declaration order. */
  function Slot(f: FieldName): (k: nat)
    ensures k < |FieldOrder| && FieldOrder[k] == f
  {
    match f
    case Nombre => 0
    case Correo => 1
    case Asunto => 2
    case Descripcion => 3
  }

  /** Positions and names are in one-to-one correspondence. */
  lemma SlotOfOrder(i: nat)
    requires i < |FieldOrder|
    ensures Slot(FieldOrder[i]) == i
  {
  }

  /** One field as the page shows it: the input's value, whether the input
      carries the `error` class (its error element is displayed exactly
      then) and the text of the error element. */
  datatype FieldState = FieldState(value: string, flagged: bool, message: string)

  /** An untouched field: no value, no error shown. */
  const Blank := FieldState("", false, "")

  /** The state in which validating field `f` holding `value` leaves it. */
  function Validated(f: FieldName, value: string): FieldState {
    Shown(value, Check(f, value))
  }

  /** A field holding `value` that displays verdict `v`. */
  function Shown(value: string, v: Verdict): FieldState {
    var message := Returned(v);
    FieldState(value, message != "", message)
  }

  const SubmitLabel := "Enviar"
  const SendingLabel := "Enviando..."

  /** `k` is the first position, in declaration order, whose field is flagged. */
  ghost predicate IsFirstFlagged(fields: seq<FieldState>, k: int) {
    0 <= k < |fields| && fields[k].flagged &&
    forall j :: 0 <= j < k ==> !fields[j].flagged
  }

  class Form {
    /** The four fields, in declaration order. */
    var fields: seq<FieldState>
    /** The submit button's text and its `disabled` property. */
    var buttonLabel: string
    var buttonDisabled: bool
    /** Completions of a simulated send that have been scheduled and have
        not run yet. */
    var pendingCompletions: nat

    /** A field shows an error exactly when its error text is non-empty; the
        button is either idle or busy; and a busy button always has a
        completion pending that will restore it. */
    ghost predicate Valid()
      reads this
    {
      |fields| == |FieldOrder| &&
      (forall i :: 0 <= i < |fields| ==> (fields[i].flagged <==> fields[i].message != "")) &&
      ((buttonLabel == SubmitLabel && !buttonDisabled) ||
       (buttonLabel == SendingLabel && buttonDisabled)) &&
      (buttonDisabled ==> pendingCompletions > 0)
    }

    /** The page as loaded: empty fields, no errors, an idle button. */
    constructor ()
      ensures Valid()
      ensures fields == [Blank, Blank, Blank, Blank]
      ensures buttonLabel == SubmitLabel && !buttonDisabled && pendingCompletions == 0
    {
      fields := [Blank, Blank, Blank, Blank];
      buttonLabel, buttonDisabled := SubmitLabel, false;
      pendingCompletions := 0;
    }

    /** The user edits field `f`: only its value changes. */
    method Edit(f: FieldName, value: string)
      requires Valid()
      modifies this
      ensures Valid()
      ensures fields == old(fields)[Slot(f) := old(fields[Slot(f)]).(value := value)]
      ensures buttonLabel == old(buttonLabel) && buttonDisabled == old(buttonDisabled)
      ensures pendingCompletions == old(pendingCompletions)
    {
      var k := Slot(f);
      fields := fields[k := fields[k].(value := value)];
    }

    /** Flags field `f` and displays `message` under it. */
    method ShowError(f: FieldName, message: string)
      requires Valid() && message != ""
      modifies this
      ensures Valid()
      ensures fields == old(fields)[Slot(f) := FieldState(old(fields[Slot(f)].value), true, message)]
      ensures buttonLabel == old(buttonLabel) && buttonDisabled == old(buttonDisabled)
      ensures pendingCompletions == old(pendingCompletions)
    {
      var k := Slot(f);
      fields := fields[k := fields[k].(flagged := true, message := message)];
    }

    /** Unflags field `f` and hides its error text. */
    method ClearError(f: FieldName)
      requires Valid()
      modifies this
      ensures Valid()
      ensures fields == old(fields)[Slot(f) := FieldState(old(fields[Slot(f)].value), false, "")]
      ensures buttonLabel == old(buttonLabel) && buttonDisabled == old(buttonDisabled)
      ensures pendingCompletions == old(pendingCompletions)
    {
      var k := Slot(f);
      fields := fields[k := fields[k].(flagged := false, message := "")];
    }

    /** Runs the rule of field `f` on its current value: the result is true
        exactly when the rule returns no message; afterwards the field is
        flagged exactly when there is a message, it displays that message,
        and no other field changes. */
    method ValidateField(f: FieldName) returns (ok: bool)
      requires Valid()
      modifies this
      ensures Valid()
      ensures ok <==> Check(f, old(fields[Slot(f)].value)) == Pass
      ensures fields == old(fields)[Slot(f) := Validated(f, old(fields[Slot(f)].value))]
      ensures buttonLabel == old(buttonLabel) && buttonDisabled == old(buttonDisabled)
      ensures pendingCompletions == old(pendingCompletions)
    {
      var value := fields[Slot(f)].value;
      var message := Returned(Check(f, value));
      if message != "" {
        ShowError(f, message);
        ok := false;
      } else {
        ClearError(f);
        ok := true;
      }
    }

    /** The first field, in declaration order, that is flagged, if any. */
    method FirstFlagged() returns (r: Option<FieldName>)
      requires Valid()
      ensures r.Some? ==> IsFirstFlagged(fields, Slot(r.value))
      ensures r.None? <==> forall j :: 0 <= j < |fields| ==> !fields[j].flagged
    {
      var i := 0;
      while i < |FieldOrder|
        invariant 0 <= i <= |FieldOrder|
        invariant forall j :: 0 <= j < i ==> !fields[j].flagged
      {
        if fields[i].flagged {
          return Some(FieldOrder[i]);
        }
        i := i + 1;
      }
      return None;
    }

    /** The first half of the submit handler: every field is validated, in
        declaration order and without stopping at the first failure, so each
        field ends up flagged by its own rule; the form is valid exactly when
        all four rules pass. */
    method ValidateAll() returns (isFormValid: bool)
      requires Valid()
      modifies this
      ensures Valid()
      ensures forall i :: 0 <= i < |FieldOrder| ==>
                fields[i] == Validated(FieldOrder[i], old(fields[i].value))
      ensures isFormValid <==> forall i :: 0 <= i < |FieldOrder| ==> !fields[i].flagged
      ensures buttonLabel == old(buttonLabel) && buttonDisabled == old(buttonDisabled)
      ensures pendingCompletions == old(pendingCompletions)
    {
      ghost var before := fields;
      isFormValid := true;
      var i := 0;
      while i < |FieldOrder|
        invariant 0 <= i <= |FieldOrder|
        invariant Valid()
        invariant forall j :: 0 <= j < i ==> fields[j] == Validated(FieldOrder[j], before[j].value)
        invariant forall j :: i <= j < |FieldOrder| ==> fields[j] == before[j]
        invariant isFormValid <==> forall j :: 0 <= j < i ==> !fields[j].flagged
        invariant buttonLabel == old(buttonLabel) && buttonDisabled == old(buttonDisabled)
        invariant pendingCompletions == old(pendingCompletions)
      {
        SlotOfOrder(i);
        var ok := ValidateField(FieldOrder[i]);
        if !ok {
          isFormValid := false;
        }
        i := i + 1;
      }
    }

    /** The submit handler. After every field is validated, a valid form
        makes the button busy and schedules one completion; an invalid one
        leaves the button alone and focuses the first flagged field, which
        always exists. */
    method Submit() returns (isFormValid: bool, focus: Option<FieldName>)
      requires Valid()
      modifies this
      ensures Valid()
      ensures forall i :: 0 <= i < |FieldOrder| ==>
                fields[i] == Validated(FieldOrder[i], old(fields[i].value))
      ensures isFormValid <==> forall i :: 0 <= i < |FieldOrder| ==> Check(FieldOrder[i], fields[i].value) == Pass
      ensures isFormValid <==> forall i :: 0 <= i < |FieldOrder| ==> !fields[i].flagged
      ensures isFormValid ==>
                focus == None && buttonLabel == SendingLabel && buttonDisabled &&
                pendingCompletions == old(pendingCompletions) + 1
      ensures !isFormValid ==>
                focus.Some? && IsFirstFlagged(fields, Slot(focus.value)) &&
                buttonLabel == old(buttonLabel) && buttonDisabled == old(buttonDisabled) &&
                pendingCompletions == old(pendingCompletions)
    {
      isFormValid := ValidateAll();
      if isFormValid {
        buttonLabel := SendingLabel;
        buttonDisabled := true;
        pendingCompletions := pendingCompletions + 1;
        focus := None;
      } else {
        focus := FirstFlagged();
      }
    }

    /** The scheduled completion of a send: the form is reset, the button is
        restored and every error is cleared. */
    method CompleteSubmission()
      requires Valid() && pendingCompletions > 0
      modifies this
      ensures Valid()
      ensures fields == [Blank, Blank, Blank, Blank]
      ensures buttonLabel == SubmitLabel && !buttonDisabled
      ensures pendingCompletions == old(pendingCompletions) - 1
    {
      pendingCompletions := pendingCompletions - 1;
      // the form's reset() empties every value
      var reset := fields;
      fields := seq(|reset|, i requires 0 <= i < |reset| => reset[i].(value := ""));
      buttonLabel := SubmitLabel;
      buttonDisabled := false;
      var i := 0;
      while i < |FieldOrder|
        invariant 0 <= i <= |FieldOrder|
        invariant Valid()
        invariant forall j :: 0 <= j < i ==> fields[j] == Blank
        invariant forall j :: i <= j < |FieldOrder| ==> fields[j].value == ""
        invariant buttonLabel == SubmitLabel && !buttonDisabled
        invariant pendingCompletions == old(pendingCompletions) - 1
      {
        ClearError(FieldOrder[i]);
        i := i + 1;
      }
    }

    /** The leave-page guard: warns exactly when some field holds a value
        that is not whitespace only. */
    method HasUnsavedData() returns (hasData: bool)
      requires Valid()
      ensures hasData <==> exists i :: 0 <= i < |fields| && !AllSpace(fields[i].value)
    {
      hasData := false;
      var i := 0;
      while i < |fields|
        invariant 0 <= i <= |fields|
        invariant forall j :: 0 <= j < i ==> AllSpace(fields[j].value)
      {
        TrimEmptyIffBlank(fields[i].value);
        if Trim(fields[i].value) != "" {
          hasData := true;
          break;
        }
        i := i + 1;
      }
    }
  }

  /** The validated fields, one by one in declaration order. */
  lemma ValidatedInOrder(typed: seq<FieldState>, fields: seq<FieldState>)
    requires |typed| == |fields| == |FieldOrder|
    requires forall i :: 0 <= i < |FieldOrder| ==> fields[i] == Validated(FieldOrder[i], typed[i].value)
    ensures fields[0] == Validated(Nombre, typed[0].value)
    ensures fields[1] == Validated(Correo, typed[1].value)
    ensures fields[2] == Validated(Asunto, typed[2].value)
    ensures fields[3] == Validated(Descripcion, typed[3].value)
  {
    assert FieldOrder[0] == Nombre && fields[0] == Validated(FieldOrder[0], typed[0].value);
    assert FieldOrder[1] == Correo && fields[1] == Validated(FieldOrder[1], typed[1].value);
    assert FieldOrder[2] == Asunto && fields[2] == Validated(FieldOrder[2], typed[2].value);
    assert FieldOrder[3] == Descripcion && fields[3] == Validated(FieldOrder[3], typed[3].value);
  }

  /** The field states after validating a form whose only failing field is
      the empty subject. */
  lemma OnlySubjectFails(fields: seq<FieldState>, nombre: string, correo: string, descripcion: string)
    requires |fields| == 4
    requires fields[0] == Shown(nombre, Pass)
    requires fields[1] == Shown(correo, Pass)
    requires fields[2] == Shown("", Fail(AsuntoRequerido))
    requires fields[3] == Shown(descripcion, Pass)
    ensures fields == [FieldState(nombre, false, ""), FieldState(correo, false, ""),
                       FieldState("", true, Wording(AsuntoRequerido)), FieldState(descripcion, false, "")]
    ensures IsFirstFlagged(fields, 2)
    ensures forall k :: IsFirstFlagged(fields, k) ==> k == 2
  {
    FourFields(fields);
  }

  /** An empty subject is reported as missing. */
  lemma EmptySubjectRequired()
    ensures Check(Asunto, "") == Fail(AsuntoRequerido)
  {
    RequiredIffBlank(Asunto, "");
  }

  /** Four unflagged fields leave nothing flagged. */
  lemma NoneFlagged(fields: seq<FieldState>)
    requires |fields| == 4
    requires !fields[0].flagged && !fields[1].flagged && !fields[2].flagged && !fields[3].flagged
    ensures forall i :: 0 <= i < |fields| ==> !fields[i].flagged
  {
  }

  /** A sequence of four field states is the display of its elements. */
  lemma FourFields(fields: seq<FieldState>)
    requires |fields| == 4
    ensures fields == [fields[0], fields[1], fields[2], fields[3]]
  {
  }

  /** A freshly loaded page on which the user has typed the four values. */
  method FilledForm(nombre: string, correo: string, asunto: string, descripcion: string)
    returns (form: Form)
    ensures fresh(form) && form.Valid()
    ensures form.fields == [FieldState(nombre, false, ""), FieldState(correo, false, ""),
                            FieldState(asunto, false, ""), FieldState(descripcion, false, "")]
    ensures form.buttonLabel == SubmitLabel && !form.buttonDisabled && form.pendingCompletions == 0
  {
    form := new Form();
    form.Edit(Nombre, nombre);
    form.Edit(Correo, correo);
    form.Edit(Asunto, asunto);
    form.Edit(Descripcion, descripcion);
  }

  /** A user fills in every field but the subject and submits: the subject
      is the field focused, it shows the "required" message, the button
      stays idle, and the other fields keep their values with no error. */
  method SubmitWithoutSubject(nombre: string, correo: string, descripcion: string)
    returns (isFormValid: bool, focus: Option<FieldName>, form: Form)
    requires Check(Nombre, nombre) == Pass && Check(Correo, correo) == Pass
    requires Check(Descripcion, descripcion) == Pass
    ensures !isFormValid && focus == Some(Asunto)
    ensures form.fields == [FieldState(nombre, false, ""), FieldState(correo, false, ""),
                            FieldState("", true, Wording(AsuntoRequerido)), FieldState(descripcion, false, "")]
    ensures form.buttonLabel == SubmitLabel && !form.buttonDisabled
  {
    form := FilledForm(nombre, correo, "", descripcion);
    ghost var typed := form.fields;
    isFormValid, focus := form.Submit();
    ValidatedInOrder(typed, form.fields);
    EmptySubjectRequired();
    OnlySubjectFails(form.fields, nombre, correo, descripcion);
  }

  /** A user submits a valid form: the button goes busy, and once the send
      completes every field is empty with no error shown and the button is
      idle again. */
  method SubmitValidForm(nombre: string, correo: string, asunto: string, descripcion: string)
    returns (busyLabel: string, busyDisabled: bool, form: Form)
    requires Check(Nombre, nombre) == Pass && Check(Correo, correo) == Pass
    requires Check(Asunto, asunto) == Pass && Check(Descripcion, descripcion) == Pass
    ensures busyLabel == SendingLabel && busyDisabled
    ensures form.fields == [Blank, Blank, Blank, Blank]
    ensures form.buttonLabel == SubmitLabel && !form.buttonDisabled && form.pendingCompletions == 0
  {
    form := FilledForm(nombre, correo, asunto, descripcion);
    ghost var typed := form.fields;
    var isFormValid, focus := form.Submit();
    ValidatedInOrder(typed, form.fields);
    NoneFlagged(form.fields);
    busyLabel, busyDisabled := form.buttonLabel, form.buttonDisabled;
    form.CompleteSubmission();
  }
}
