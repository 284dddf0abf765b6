/**
 * The rule set of the contact form: each field maps its raw input to the
 * empty string (valid) or to a fixed error message. The checks run in
 * order and the first failing one decides the message.
 */
module Rules {
  import opened Text
  import opened Email

  /** The four fields, in the order the form declares them. */
  datatype FieldName = Nombre | Correo | Asunto | Descripcion

  /** The fixed error messages, one per failing check. */
  datatype Message =
    | NombreRequerido | NombreCorto | NombreLetras
    | CorreoRequerido | CorreoInvalido
    | AsuntoRequerido | AsuntoCorto
    | DescripcionRequerida | DescripcionCorta | DescripcionLarga

  /** The text of each message, as the page displays it. */
  function Wording(m: Message): (s: string)
    ensures s != ""
  {
    match m
    case NombreRequerido => "El nombre es requerido"
    case NombreCorto => "El nombre debe tener al menos 2 caracteres"
    case NombreLetras => "El nombre solo puede contener letras"
    case CorreoRequerido => "El correo electrónico es requerido"
    case CorreoInvalido => "Ingrese un correo electrónico válido"
    case AsuntoRequerido => "El asunto es requerido"
    case AsuntoCorto => "El asunto debe tener al menos 5 caracteres"
    case DescripcionRequerida => "La descripción es requerida"
    case DescripcionCorta => "La descripción debe tener al menos 10 caracteres"
    case DescripcionLarga => "La descripción no puede exceder 500 caracteres"
  }

  /** What a rule returns: the empty string (valid) or one message. */
  datatype Verdict = Pass | Fail(message: Message)

  /** The string a rule returns to its caller. */
  function Returned(v: Verdict): (s: string)
    ensures s == "" <==> v == Pass
  {
    match v
    case Pass => ""
    case Fail(m) => Wording(m)
  }

  /** A character of the class `[a-zA-ZáéíóúÁÉÍÓÚñÑ\s]`. */
  predicate NameChar(c: char) {
    ('a' <= c <= 'z') || ('A' <= c <= 'Z') || c in "áéíóúÁÉÍÓÚñÑ" || IsSpace(c)
  }

  /** `s` matches `^[a-zA-ZáéíóúÁÉÍÓÚñÑ\s]+$`. */
  predicate NameShaped(s: string) {
    s != [] && forall i :: 0 <= i < |s| ==> NameChar(s[i])
  }

  /** The name class holds only characters of the Basic Multilingual Plane,
      so a surrogate half never matches it and testing the pattern on UTF-16
      code units agrees with testing it on characters. */
  lemma NameCharIsBmp(c: char)
    requires NameChar(c)
    ensures c as int <= 0xFFFF
  {
  }

  /** A value the name pattern accepts has as many code units as
      characters. */
  lemma NameShapedLength(s: string)
    requires NameShaped(s)
    ensures JsLength(s) == |s|
  {
    forall i | 0 <= i < |s| ensures s[i] as int <= 0xFFFF {
      NameCharIsBmp(s[i]);
    }
    JsLengthOfBmp(s);
  }

  /** The messages field `f` can report. */
  function MessagesOf(f: FieldName): set<Message> {
    match f
    case Nombre => {NombreRequerido, NombreCorto, NombreLetras}
    case Correo => {CorreoRequerido, CorreoInvalido}
    case Asunto => {AsuntoRequerido, AsuntoCorto}
    case Descripcion => {DescripcionRequerida, DescripcionCorta, DescripcionLarga}
  }

  function ValidateNombre(value: string): (v: Verdict)
    ensures v.Fail? ==> v.message in MessagesOf(Nombre)
  {
    if Trim(value) == "" then Fail(NombreRequerido)
    else if JsLength(Trim(value)) < 2 then Fail(NombreCorto)
    else if !NameShaped(value) then Fail(NombreLetras)
    else Pass
  }

  function ValidateCorreo(value: string): (v: Verdict)
    ensures v.Fail? ==> v.message in MessagesOf(Correo)
  {
    if Trim(value) == "" then Fail(CorreoRequerido)
    else if !MatchesEmail(value) then Fail(CorreoInvalido)
    else Pass
  }

  function ValidateAsunto(value: string): (v: Verdict)
    ensures v.Fail? ==> v.message in MessagesOf(Asunto)
  {
    if Trim(value) == "" then Fail(AsuntoRequerido)
    else if JsLength(Trim(value)) < 5 then Fail(AsuntoCorto)
    else Pass
  }

  function ValidateDescripcion(value: string): (v: Verdict)
    ensures v.Fail? ==> v.message in MessagesOf(Descripcion)
  {
    if Trim(value) == "" then Fail(DescripcionRequerida)
    else if JsLength(Trim(value)) < 10 then Fail(DescripcionCorta)
    else if JsLength(Trim(value)) > 500 then Fail(DescripcionLarga)
    else Pass
  }

  /** The rule bound to field `f`. */
  function Check(f: FieldName, value: string): (v: Verdict)
    ensures v.Fail? ==> v.message in MessagesOf(f)
  {
    match f
    case Nombre => ValidateNombre(value)
    case Correo => ValidateCorreo(value)
    case Asunto => ValidateAsunto(value)
    case Descripcion => ValidateDescripcion(value)
  }

  /** The message a field reports when it is left empty. */
  function RequiredMessage(f: FieldName): (message: Message)
    ensures message in MessagesOf(f)
  {
    match f
    case Nombre => NombreRequerido
    case Correo => CorreoRequerido
    case Asunto => AsuntoRequerido
    case Descripcion => DescripcionRequerida
  }

  /** Every field reports its "required" message exactly for the values
      that are empty or whitespace only; no later check is reached then. */
  lemma RequiredIffBlank(f: FieldName, value: string)
    ensures Check(f, value) == Fail(RequiredMessage(f)) <==> AllSpace(value)
  {
    TrimEmptyIffBlank(value);
  }

  /** A value whose trimmed form is one code unit long is too short for a
      name, whatever its characters. */
  lemma NombreOneCharIsTooShort(value: string)
    requires !AllSpace(value) && JsLength(Trim(value)) == 1
    ensures ValidateNombre(value) == Fail(NombreCorto)
  {
    TrimEmptyIffBlank(value);
  }

  /** A name is valid exactly when its trimmed form has at least two code
      units and every character of the raw value is a letter of the name
      alphabet or whitespace. */
  lemma NombreValidIff(value: string)
    ensures ValidateNombre(value) == Pass <==>
      JsLength(Trim(value)) >= 2 && forall i :: 0 <= i < |value| ==> NameChar(value[i])
  {
  }

  /** Once the length check passes, a single digit or symbol anywhere in the
      raw value yields the "only letters" message. */
  lemma NombreForeignCharRejected(value: string, i: nat)
    requires i < |value| && !NameChar(value[i])
    requires JsLength(Trim(value)) >= 2
    ensures ValidateNombre(value) == Fail(NombreLetras)
  {
  }

  /** The e-mail rule accepts exactly the raw values that match the
      pattern, and reports every other non-blank value as malformed. */
  lemma CorreoByPattern(value: string)
    ensures ValidateCorreo(value) ==
      if AllSpace(value) then Fail(CorreoRequerido)
      else if EmailShape(value) then Pass else Fail(CorreoInvalido)
  {
    TrimEmptyIffBlank(value);
    MatchesEmailIff(value);
  }

  /** A value with a visible character is judged by the pattern alone. */
  lemma CorreoNonBlank(value: string, i: nat)
    requires i < |value| && !IsSpace(value[i])
    ensures ValidateCorreo(value) == if MatchesEmail(value) then Pass else Fail(CorreoInvalido)
  {
    TrimEmptyIffBlank(value);
  }

  /** "a@b.co" is accepted. */
  lemma CorreoAcceptsExample()
    ensures ValidateCorreo("a@b.co") == Pass
  {
    AcceptsShortAddress();
    CorreoNonBlank("a@b.co", 1);
  }

  /** "a@b" is malformed: no dot after the `@`. */
  lemma CorreoRejectsMissingDot()
    ensures ValidateCorreo("a@b") == Fail(CorreoInvalido)
  {
    RejectsMissingDot();
    CorreoNonBlank("a@b", 1);
  }

  /** "ab.com" is malformed: no `@`. */
  lemma CorreoRejectsMissingAt()
    ensures ValidateCorreo("ab.com") == Fail(CorreoInvalido)
  {
    RejectsMissingAt();
    CorreoNonBlank("ab.com", 2);
  }

  /** "a b@c.com" is malformed: a space before the `@`. */
  lemma CorreoRejectsInnerSpace()
    ensures ValidateCorreo("a b@c.com") == Fail(CorreoInvalido)
  {
    RejectsInnerSpace();
    CorreoNonBlank("a b@c.com", 3);
  }

  /** An address with a leading space is malformed, not missing. */
  lemma CorreoLeadingSpace()
    ensures ValidateCorreo(" a@b.co") == Fail(CorreoInvalido)
  {
    RejectsLeadingSpace();
    CorreoNonBlank(" a@b.co", 2);
  }

  /** A name made of one character beyond the Basic Multilingual Plane
      (most emoji) counts two code units, so it passes the length check and
      is then rejected as not being letters. */
  lemma NombreSingleAstralChar(c: char)
    requires c as int > 0xFFFF
    ensures ValidateNombre([c]) == Fail(NombreLetras)
  {
    assert !IsSpace(c) && !NameChar(c);
    assert StripsAt([c], [c], 0);
    TrimIff([c], [c]);
    JsLengthOfChar(c);
  }

  /** The subject rule: valid exactly when the trimmed value has at least
      five code units; any other non-blank value is too short. */
  lemma AsuntoByLength(value: string)
    ensures ValidateAsunto(value) == Pass <==> JsLength(Trim(value)) >= 5
    ensures !AllSpace(value) && JsLength(Trim(value)) < 5 ==>
      ValidateAsunto(value) == Fail(AsuntoCorto)
  {
    TrimEmptyIffBlank(value);
  }

  /** The description rule: valid exactly when the trimmed value has between
      10 and 500 code units; shorter non-blank values are too short and
      longer ones too long. */
  lemma DescripcionByLength(value: string)
    ensures ValidateDescripcion(value) == Pass <==> 10 <= JsLength(Trim(value)) <= 500
    ensures !AllSpace(value) && JsLength(Trim(value)) < 10 ==>
      ValidateDescripcion(value) == Fail(DescripcionCorta)
    ensures JsLength(Trim(value)) > 500 ==> ValidateDescripcion(value) == Fail(DescripcionLarga)
  {
    TrimEmptyIffBlank(value);
  }
}
