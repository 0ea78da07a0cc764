# VIN decoder form, modelled in Dafny

This project models the input pipeline of the "Vehicle VIN Decoder" page
(`streamlit_vin_decoder.py`). A user types a Vehicle Identification Number and
presses "Decode VIN". The page trims the text and then upper-cases it. It refuses an empty
input. It checks that the VIN is 17 characters long. It then checks that every
character is in the VIN alphabet `A–H, J–N, P, R–Z, 0–9`, which excludes I, O and Q.
Only then does it ask the external NHTSA lookup for year, make and model. It shows
those fields, an "incomplete data" warning, or the lookup's error message.

The model is pure. It has three modules:

- `Wrappers` (`wrappers.dfy`): `Option`, standing for a value or Python's `None`.
- `PyStr` (`py_str.dfy`): the Python `str.strip()` and `str.upper()` the page
  applies to the VIN field. Each is specified by what it keeps and what it removes.
- `VinDecoder` (`vin_decoder.dfy`): the page's logic. `GetVin` is `get_vin`.
  `Submit` is the button handler in `main`. `ClassifyLookup` is the `try` block
  that judges the lookup's answer.

The lookup service is a parameter `service: string -> Lookup`. A `Lookup` either
raises with a message or returns three optional fields. Every run yields a `Run`:
the `Outcome` the page shows, plus the list of VINs handed to the service. So
"the service is asked only about an accepted VIN, exactly once, and with the
normalised text" is a property of the result itself.

A missing or empty field is not an error. Lines 45-46 show a separate
"incomplete data" warning (`Incomplete`), distinct from the error shown when
the lookup raises (`ServiceError`, lines 61-62).

The check uses Python's `re.match` with the pattern `^[A-HJ-NPR-Z0-9]{17}$`.
The `$` in that pattern also matches just before one final newline. The model
keeps that (`MatchesVinPattern`). `TrailingNewlineCaughtByLength` shows that this
never matters, because the length check runs first.

## Model

| member | source | states |
|---|---|---|
| PyStr.IsSpace | streamlit_vin_decoder.py:86 | the whitespace `strip()` removes is never an ASCII letter or digit, so it never touches a VIN character |
| PyStr.WhitespaceListed | streamlit_vin_decoder.py:86 | the code-point ranges used for `str.isspace` pick out exactly the 29 listed whitespace characters |
| PyStr.SkipLeading | streamlit_vin_decoder.py:86 | the start index `strip()` keeps: every character skipped is whitespace, and the character found there is not |
| PyStr.SkipTrailing | streamlit_vin_decoder.py:86 | the end index `strip()` keeps: every character skipped from the end is whitespace, and the one just before the result is not |
| PyStr.Strip | streamlit_vin_decoder.py:86 | `strip()` gives a slice of the input with no whitespace at either end, and only whitespace lies on either side of that slice |
| PyStr.StripAllSpace | streamlit_vin_decoder.py:86-88 | text made only of whitespace strips to the empty string |
| PyStr.StripAround | streamlit_vin_decoder.py:86 | when only whitespace lies outside a slice whose first and last characters are not whitespace, `strip()` returns exactly that slice |
| PyStr.StripOfPadded | streamlit_vin_decoder.py:86 | any trimmed text with whitespace added on both sides strips back to exactly that text, so the slice that `Strip` keeps is the only possible one |
| PyStr.StripEmptyIff | streamlit_vin_decoder.py:86-88 | the stripped VIN field is empty exactly when everything typed is whitespace |
| PyStr.StripIdempotent | streamlit_vin_decoder.py:86 | stripping twice gives the same result as stripping once |
| PyStr.UpperChar | streamlit_vin_decoder.py:86 | a lower-case ASCII letter becomes the capital at the same place in the alphabet and every other character is unchanged; the result is never a lower-case ASCII letter, and whitespace stays whitespace |
| PyStr.Upper | streamlit_vin_decoder.py:86 | `upper()` keeps the length and upper-cases each character in its place |
| PyStr.UpperTrimmed | streamlit_vin_decoder.py:86 | upper-casing a text with no whitespace at its ends leaves no whitespace at its ends |
| PyStr.UpperIdempotent | streamlit_vin_decoder.py:86 | upper-casing twice gives the same result as upper-casing once |
| VinDecoder.AllVinChars | streamlit_vin_decoder.py:36 | the scan over the character class is true exactly when every character is in `[A-HJ-NPR-Z0-9]` |
| VinDecoder.MatchesVinPattern | streamlit_vin_decoder.py:36 | `re.match(r'^[A-HJ-NPR-Z0-9]{17}$', s)` holds exactly for a well-formed VIN, or a well-formed VIN followed by one newline (`$` also matches before a final newline) |
| VinDecoder.VinAlphabet | streamlit_vin_decoder.py:36-37 | the character class is exactly the upper-case ASCII letters and digits other than I, O and Q, as the error message says |
| VinDecoder.PatternAtVinLength | streamlit_vin_decoder.py:36 | for a 17-character input, the regular expression matches exactly when every character is in the VIN alphabet |
| VinDecoder.TrailingNewlineCaughtByLength | streamlit_vin_decoder.py:33-36 | the pattern alone would accept a VIN followed by a newline, but `get_vin` gives that input the length error |
| VinDecoder.IncompleteTest | streamlit_vin_decoder.py:45 | the test `not all([year, make, model]) or any(v is None ...)` holds exactly when the returned data is not complete (some field `None` or empty); its `is None` half adds nothing |
| VinDecoder.ClassifyLookup | streamlit_vin_decoder.py:42-62 | a raised lookup becomes the service error with its message and nothing else does. A missing or empty year, make or model gives "incomplete", which shows no field. Three present, non-empty fields give success, which shows exactly those make, model and year |
| VinDecoder.GetVin | streamlit_vin_decoder.py:33-62 | wrong length gives the length error and never the alphabet error. A 17-character input with a character outside the alphabet gives the alphabet error. The service is consulted at most once, with the VIN itself, and only when the input is a well-formed VIN. Either rejection consults nothing. An accepted VIN's outcome is the service error, "incomplete" or success, according to the lookup's answer |
| VinDecoder.ForbiddenCharacterRejected | streamlit_vin_decoder.py:33-38 | a 17-character input holding I, O, Q, or any character that is not an upper-case ASCII letter or digit (lower-case letters, whitespace, any punctuation, non-ASCII characters) gets the alphabet error, and the service is not consulted |
| VinDecoder.Normalise | streamlit_vin_decoder.py:86 | `strip().upper()` gives text no longer than the input, with no whitespace at either end and no lower-case ASCII letter; it is empty exactly when the input is all whitespace |
| VinDecoder.Submit | streamlit_vin_decoder.py:86-91 | without a press nothing happens. An all-whitespace field gives the empty-VIN error without calling `get_vin`. Otherwise the run is `get_vin` on the stripped, upper-cased text. The service is consulted, once, exactly when the button was pressed and the normalised text is a well-formed VIN |
| VinDecoder.NormaliseIdempotent | streamlit_vin_decoder.py:86 | trimming and upper-casing an already normalised VIN changes nothing |
| VinDecoder.SubmitNormalised | streamlit_vin_decoder.py:86-91 | typing the normalised text instead of the raw text gives the identical run |
| VinDecoder.UpperVinChar | streamlit_vin_decoder.py:86 | a character upper-cases into the VIN alphabet exactly when it is in the alphabet already or is a lower-case letter other than i, o and q |
| VinDecoder.AcceptedRawInput | streamlit_vin_decoder.py:86-89 | a pressed submission is looked up exactly when the stripped text has 17 characters and each one is in the VIN alphabet or is a lower-case letter other than i, o and q |
| VinDecoder.TypedInAnyCase | streamlit_vin_decoder.py:86-89 | a VIN typed in any mix of letter cases, with whitespace around it, is looked up exactly once, as the upper-case VIN |
| VinDecoder.Examples | streamlit_vin_decoder.py:33-40 | `1HGCM82633A004352` is looked up. The 16-character `1HGCM82633A00435` gets the length error. `1HGCM82633A0Q4352` gets the alphabet error |

## Left out

- Streamlit rendering is not modelled: the status area, columns, images, markdown, the expander, the footer and the greeting. Each outcome stands for the message the page shows.
- An exception raised inside the `try` block by rendering, such as a missing car image file, is not modelled. It would replace the success message with the service error.
- `nhtsa_api_call.get_vehicle_info` is not part of this model. It is the parameter `service`. A return value that cannot be unpacked into three values raises in Python, and here that is a `Raised` lookup. The fields are strings or `None`. Other Python values with their own truthiness are not modelled.
- The user name and its `capitalize()` appear only in message text, so the model leaves them out.
- The widget's `max_chars=17` limit is not modelled, because it is a limit of the text box. `GetVin` accepts input of any length.
- `PyStr.Upper` and `PyStr.UpperChar` upper-case only ASCII letters. Python's `upper()` also maps non-ASCII letters, and some of those change length (`ß` becomes `SS`) or become ASCII (`ſ` becomes `S`). Those cases are not modelled.
- `PyStr.IsSpace` is Python's `str.isspace` character set, listed explicitly. The Unicode database behind it is not modelled.
- The position-9 check digit of a VIN is not modelled, because the code does not check it.
