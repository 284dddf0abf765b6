# Contact-form validation of a personal portfolio page, in Dafny

The portfolio page's script (`script.js`) validates a four-field contact form
in real time: *nombre*, *correo*, *asunto* and *descripcion*. Each field has a
rule that maps the raw text to either the empty string (valid) or a fixed
Spanish error message. The first failing check decides the message.

`validateField` runs one rule. It shows or clears the field's error: the
`error` class on the input, and the text and visibility of the error element.
The submit handler validates every field without stopping at the first
failure. If all four pass, it starts a simulated send: the button reads
"Enviando..." and is disabled, and 2000 ms later the form is reset, the errors
are cleared and the button is restored. Otherwise it focuses the first field
in declaration order that shows an error.

The same script also has three small pieces of logic:
- a leave-page guard that warns when some field is not blank;
- the target offset of the smooth scroll to a section;
- the hamburger menu, which opens and closes.

The project models these pieces. It proves that the rules, the form
controller and the menu do what the script promises.

Files:
- `Wrappers.dfy`: the `Option` type.
- `Text.dfy`: JavaScript's whitespace class, which `trim` and the regular-expression escape `\s` share. It also has `trim` and `String.prototype.length`, which counts UTF-16 code units.
- `Email.dfy`: the pattern `^[^\s@]+@[^\s@]+\.[^\s@]+$`. It is written twice: as an executable matcher, and as a reference reading that splits the string at the `@` and the `.`. A lemma proves that the two agree.
- `Rules.dfy`: the four rules. A rule's outcome is a `Verdict`: `Pass`, or `Fail` of one of ten enumerated messages. `Wording` gives each message's exact text, and `Returned` gives the string the script's rule returns.
- `ContactForm.dfy`: the class `Form`. It holds the four fields in declaration order. Each field has a value, an error flag and a displayed message. The class also holds the button's label and disabled flag, and the number of scheduled send completions. It has the handlers and two client scenarios.
- `Navigation.dfy`: the class `Menu` and the scroll target.

Points where the code is narrower or more literal than one might expect:
- The e-mail pattern excludes `@` after the dot as well as before it: every part is `[^\s@]+`.
- Names accept only `a-z`, `A-Z`, the twelve characters `áéíóúÁÉÍÓÚñÑ` and whitespace; any other accented letter (such as `ü` or `ç`) is rejected.
- A blur does not cancel a pending debounced validation (`script.js:121`): the timer set on input still fires after the blur's own validation. Neither is modelled, because timers are left out.
- Length limits are on the trimmed value's JavaScript length, which counts UTF-16 code units. A character outside the Basic Multilingual Plane counts twice (`Text.JsLengthAppend`, `Text.JsLengthOfChar`). So a name made of a single such character passes the two-character minimum and then fails the letters check (`Rules.NombreSingleAstralChar`). A one-character name inside that plane, such as "✅", gets the "al menos 2" message (`Rules.NombreOneCharIsTooShort`). For text inside the plane the length is the number of characters (`Text.JsLengthOfBmp`).

## Model

| member | source | states |
|---|---|---|
| `Text.TrimStart` | script.js:43-44 | the result is a suffix of the input; everything removed is whitespace; the result is empty or starts with a non-whitespace character |
| `Text.TrimEnd` | script.js:43-44 | the result is a prefix of the input; everything removed is whitespace; the result is empty or ends with a non-whitespace character |
| `Text.IsSpace` | script.js:43-45 | the whitespace set, JavaScript's WhiteSpace and LineTerminator characters, which `trim` removes and `\s` matches |
| `Text.SpaceIsBmp` | script.js:45 | every whitespace character lies in the Basic Multilingual Plane, so `\s` gives the same answer on UTF-16 code units as on characters |
| `Text.Trim` | script.js:43-44 | `trim` returns an infix of the value that is empty or has non-whitespace characters at both ends |
| `Text.TrimStripsSpace` | script.js:43-44 | what `trim` removes before and after its result is whitespace only |
| `Text.TrimIff` | script.js:43-44 | a string is the trim of a value exactly when it is what is left after removing whitespace runs at both ends and it neither starts nor ends with whitespace; `trim` is the only such string |
| `Text.TrimEmptyIffBlank` | script.js:43 | `!value.trim()` holds exactly when the value is empty or whitespace only |
| `Text.JsLength` | script.js:44 | `.length` lies between the number of characters and twice that number |
| `Text.JsLengthAppend` | script.js:44 | `.length` of a concatenation is the sum of the lengths |
| `Text.JsLengthOfChar` | script.js:44 | one character has `.length` 2 when it lies beyond U+FFFF and 1 otherwise; with `Text.JsLengthAppend` this fixes `.length` of every string as its number of characters plus its number of characters beyond U+FFFF |
| `Text.JsLengthOfBmp` | script.js:44 | for text inside the Basic Multilingual Plane, `.length` is the number of characters |
| `Email.FirstIndex` | script.js:54-55 | the position of the first `@`, or the length when there is none; no earlier character is `@` |
| `Email.MatchesEmail` | script.js:54-55 | `emailRegex.test(value)`: a match has at least five characters (`x@y.z`) |
| `Email.MatchHasNoOuterSpace` | script.js:55 | a value that starts or ends with whitespace never matches, since the pattern is tested on the untrimmed value |
| `Email.MatchesEmailIff` | script.js:54-55 | the executable matcher accepts exactly the strings that split as `[^\s@]+` `@` `[^\s@]+` `.` `[^\s@]+` |
| `Email.AcceptsShortAddress` | script.js:54-55 | "a@b.co" matches the pattern |
| `Email.RejectsMissingDot` | script.js:54-55 | "a@b" does not match |
| `Email.RejectsMissingAt` | script.js:54-55 | "ab.com" does not match |
| `Email.RejectsInnerSpace` | script.js:54-55 | "a b@c.com" does not match |
| `Email.RejectsLeadingSpace` | script.js:54-55 | " a@b.co" does not match, because the pattern is tested on the untrimmed value |
| `Rules.Wording` | script.js:43-74 | every error message has non-empty text, so it is truthy where `validateField` tests it |
| `Rules.Returned` | script.js:42-76 | a rule returns the empty string exactly when it passes |
| `Rules.ValidateNombre` | script.js:42-47 | the name rule returns `''` or one of its three messages |
| `Rules.ValidateCorreo` | script.js:52-57 | the e-mail rule returns `''` or one of its two messages |
| `Rules.ValidateAsunto` | script.js:62-66 | the subject rule returns `''` or one of its two messages |
| `Rules.ValidateDescripcion` | script.js:71-76 | the description rule returns `''` or one of its three messages |
| `Rules.Check` | script.js:38-78 | each field's rule reports only that field's messages |
| `Rules.RequiredMessage` | script.js:43-72 | the "required" message of each field is one of that field's messages |
| `Rules.RequiredIffBlank` | script.js:42-76 | every field reports its "requerido/requerida" message exactly for empty or whitespace-only values, so no later check decides them |
| `Rules.NombreOneCharIsTooShort` | script.js:43-44 | a non-blank name whose trimmed length is 1 gets the "al menos 2" message |
| `Rules.NombreValidIff` | script.js:42-47 | a name is valid exactly when its trimmed length is at least 2 and every raw character is in `[a-zA-ZáéíóúÁÉÍÓÚñÑ]` or is whitespace |
| `Rules.NameChar` | script.js:45 | a character of the class `[a-zA-ZáéíóúÁÉÍÓÚñÑ\s]` |
| `Rules.NameCharIsBmp` | script.js:45 | the name class holds only characters of the Basic Multilingual Plane, so neither half of a surrogate pair matches it |
| `Rules.NameShaped` | script.js:45 | the value matches `^[a-zA-ZáéíóúÁÉÍÓÚñÑ\s]+$` |
| `Rules.NameShapedLength` | script.js:44-45 | a value the name pattern accepts has a `.length` equal to its number of characters |
| `Rules.NombreSingleAstralChar` | script.js:42-47 | a name made of one character beyond U+FFFF (`.length` 2) passes the length check and gets the "solo puede contener letras" message |
| `Rules.NombreForeignCharRejected` | script.js:44-45 | past the length check, any character outside the name alphabet (a digit, a symbol) gives the "solo puede contener letras" message |
| `Rules.CorreoByPattern` | script.js:52-57 | blank values get "requerido"; other values are valid exactly when the raw value matches the pattern, and get "válido" otherwise |
| `Rules.CorreoNonBlank` | script.js:53-55 | a value with any visible character is judged by the pattern alone |
| `Rules.CorreoAcceptsExample` | script.js:52-57 | "a@b.co" is valid |
| `Rules.CorreoRejectsMissingDot` | script.js:52-57 | "a@b" gets the "válido" message |
| `Rules.CorreoRejectsMissingAt` | script.js:52-57 | "ab.com" gets the "válido" message |
| `Rules.CorreoRejectsInnerSpace` | script.js:52-57 | "a b@c.com" gets the "válido" message |
| `Rules.CorreoLeadingSpace` | script.js:52-57 | " a@b.co" gets the "válido" message, not "requerido" |
| `Rules.AsuntoByLength` | script.js:62-66 | the subject is valid exactly when its trimmed `.length` is at least 5; any other non-blank value gets "al menos 5" |
| `Rules.DescripcionByLength` | script.js:71-76 | the description is valid exactly when its trimmed `.length` is between 10 and 500; shorter non-blank values get "al menos 10" and longer ones "no puede exceder 500" |
| `ContactForm.Slot` | script.js:38-78 | each field has its position in the declaration order nombre, correo, asunto, descripcion |
| `ContactForm.Form.constructor` | script.js:35-78 | the page as loaded: four empty fields with no error shown, the button reading "Enviar" and enabled, no send pending; the object invariant holds |
| `ContactForm.Form.Edit` | script.js:114-118 | typing into a field changes only that field's value; the debounced validation it schedules is a later `ValidateField` |
| `ContactForm.Form.ShowError` | script.js:81-85 | the field is flagged and shows the message; its value and all other fields are unchanged |
| `ContactForm.Form.ClearError` | script.js:88-92 | the field is unflagged and its message is emptied; its value and all other fields are unchanged |
| `ContactForm.Form.ValidateField` | script.js:95-107 | returns true exactly when the rule passes; afterwards the field is flagged exactly when there is a message and shows that message; no other field changes |
| `ContactForm.Form.FirstFlagged` | script.js:155-157 | returns the first flagged field in declaration order, or nothing exactly when no field is flagged |
| `ContactForm.Form.ValidateAll` | script.js:128-133 | every field is validated, with no short-circuit; each ends in its own rule's state; the form is valid exactly when no field is flagged |
| `ContactForm.Form.Submit` | script.js:125-166 | every field reflects its own rule; the form is valid exactly when all four rules pass; a valid form makes the button "Enviando..." and disabled, and schedules one completion; an invalid form focuses the first flagged field, which always exists, and leaves the button alone |
| `ContactForm.Form.CompleteSubmission` | script.js:142-152 | every value is emptied; every error flag and message is cleared; the button reads "Enviar" and is enabled; the object invariant (a disabled button always has a completion pending) is kept |
| `ContactForm.Form.HasUnsavedData` | script.js:339-357 | warns exactly when some field's value has a non-empty trim |
| `ContactForm.SubmitWithoutSubject` | script.js:125-166 | with a valid name, e-mail and description and an empty subject, submitting focuses the subject, which shows "El asunto es requerido"; the other fields keep their values without errors; the button stays idle |
| `ContactForm.SubmitValidForm` | script.js:137-152 | submitting a valid form makes the button busy; after completion all fields are empty with no error, and the button is idle |
| `Navigation.Menu.constructor` | script.js:8-13 | the menu as loaded: closed, with the `active` class off on both the hamburger and the nav |
| `Navigation.Menu.Toggle` | script.js:10-13 | a trigger click flips the menu; hamburger and nav stay in step |
| `Navigation.Menu.Close` | script.js:17-22 | a nav-link click closes the menu |
| `Navigation.Menu.DocumentClick` | script.js:25-30 | a click outside both the trigger and the nav closes the menu; any other click leaves it as it was |
| `Navigation.Menu.Click` | script.js:10-30 | after the target's listener and the document's listener run: a trigger click toggles the menu; a link click or an outside click closes it; another click inside the nav changes nothing |
| `Navigation.ScrollTarget` | script.js:211-222 | no scroll happens when the section is missing; otherwise the target is `offsetTop - headerHeight - 20`, that is `headerHeight + 20` above the section's offset |

## Left out

- Timers. The 300 ms debounce on input (`script.js:114-118`) is left out. So are the 2000 ms send latency and the animation delays. A validation that a debounce or a blur would trigger is a call to `ValidateField`. The end of the send latency is a call to `CompleteSubmission`, and `pendingCompletions` counts the scheduled ones.
- DOM and browser effects are left out: `classList`, `style`, `scrollIntoView`, `focus`, `alert`, `window.scrollTo` and the smooth animation. `Submit` returns the field to focus. `ScrollTarget` returns the position passed to `window.scrollTo`. Where the section then appears on screen is not modelled: that depends on the header being fixed, on `offsetTop` being measured from the document, and on the browser's clamping of the scroll position to the page.
- `FormData` is not modelled. `HasUnsavedData` reads the four fields, on the assumption that they are the form's only named controls. The text of the leave-page prompt is not modelled; only the decision to show it is.
- The page's markup is not part of this model. `form.reset()` restores each input's default value, which the markup sets; the defaults are taken to be empty. The initial state (`ContactForm.Form.constructor`) also comes from the markup: the button is taken to read "Enviar", and every input to be empty with its error element empty and hidden. The menu's initial state (`Navigation.Menu.constructor`) comes from the markup too: neither the hamburger nor the nav is taken to carry the `active` class. The listeners change the two classes separately, so the menu's invariant that they are in step rests on this.
- The skill-bar and section fade-in visibility observers (`script.js:171-249`) are left out. They are presentation driven by `IntersectionObserver`.
- Adding a blog post (`script.js:252-293`) is left out. It is HTML templating plus locale date formatting, and the date formatting is a foreign call.
- The header's restyling on scroll (`script.js:327-336`), console logging and the start-up wiring (`script.js:296-322`) are left out. So are the null checks that skip a feature when its elements are missing.
- Regular expressions are not interpreted in general. Each of the two patterns is written out as predicates over characters. The model works on Unicode code points, while the script's patterns, which have no `u` flag, work on UTF-16 code units. The results agree. The name class holds only characters of the Basic Multilingual Plane, so no surrogate half matches it, just as no character beyond that plane satisfies `NameChar` (`Rules.NameCharIsBmp`). The class `[^\s@]` excludes only characters of that plane (`Text.SpaceIsBmp`), so both halves of a surrogate pair match it, and the `+` runs take in both halves, just as the whole character satisfies `PartChar`.
- Clicks on the page are classified up front as on the trigger, on a nav link, elsewhere inside the nav, or outside. DOM containment (`contains`) is not modelled.
