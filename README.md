# SEO Writer: a Dafny model of the generate run

SEO Writer is a single-page Streamlit application, `app.py`. It writes an
introductory SEO text for a product listing or product page. The user gives
a keyword, a reference URL, the content type, a tone, optional brand voice,
guidelines, intro text and bullets, and a character window
`[target_min, target_max]`. Pressing the generate button runs this sequence:

1. check that the keyword is not blank;
2. build a system prompt and a user prompt by `str.format`;
3. ask the model for a first text;
4. stop if that text is empty;
5. if its length is outside the window, ask once more, sending the first text
   followed by a corrective instruction;
6. strip the result and cut it to the window with `enforce_length`;
7. recount it, log a row to a spreadsheet (best effort), and show success
   or a warning.

This project models that run, the helpers it uses (`clean_domain`,
`char_count`, `enforce_length`) and the target length `target_chars`. Every
Python built-in the run depends on is defined explicitly:

- `str.strip`, with Python's Unicode whitespace set;
- `s[:n]`, including negative `n`;
- `str.find` and `str.replace`;
- `str(int)`, as `format` renders numbers;
- `x or default` on strings;
- `int(x / 2)`, which truncates toward zero.

`char_count` is the length `|s|` of a Dafny string. A Dafny string is a
sequence of code points, as a Python `str` is.

Modules:

- `PyText` (`pytext.dfy`): the Python string and integer built-ins above,
  with their specifications as lemmas.
- `Helpers` (`helpers.dfy`): `clean_domain` and `enforce_length`.
- `Prompts` (`prompts.dfy`): the form values, the window and `target_chars`,
  prompt templates as `format` reads them, and the bindings the page passes.
- `Generate` (`generate.dfy`): the run itself. The method `Generate` follows
  the code step by step. It is proved equal to the specification function
  `Expected`, and the properties of a run are lemmas about `Expected`.

The run reads outside services. Their answers are an input, `World`:

- the netloc `urlparse` produced (or `None` if it raised);
- whether `get_openai_client` returned a client;
- the reply to each completion request (content or exception);
- how `log_to_sheet` ended.

What the run asks of those services is recorded as a trace of events: each
model request with its model, system prompt, user prompt and token limit,
and the log request with its fields.

Two behaviours of the code are easy to misread:

- `clean_domain` removes every "www." in the netloc (`str.replace`), not
  only a leading one. A removal can also join the text on either side of it
  into a new "www.", which a second cleaning then removes, so cleaning is not
  idempotent. `CleanDomainNotIdempotent` exhibits "wwwww.w." → "www." → "".
- The sentence cut of `enforce_length` uses `(.+[\.!?])[^\.!?]*$`, which
  needs at least one character before the terminator. A terminator at index
  0 alone does not count, and the text is then cut at exactly `max_c`
  characters (`EnforceLengthLeadingTerminator`).

## Model

| member | source | states |
|---|---|---|
| PyText.TrimStartSpec | app.py:113 | `lstrip` keeps a suffix of the text; what it drops is all whitespace, and the rest does not start with whitespace |
| PyText.TrimEndSpec | app.py:113 | `rstrip` keeps a prefix; what it drops is all whitespace, and the rest does not end with whitespace |
| PyText.StripIsInfix | app.py:281 | `strip` returns an infix of the text with only whitespace on either side, neither starting nor ending with whitespace |
| PyText.StripEmptyIff | app.py:221 | `keyword.strip()` is empty exactly when the keyword is made of whitespace only |
| PyText.StripIdempotent | app.py:281 | stripping an already stripped reply changes nothing |
| PyText.SlicePrefix | app.py:45 | `text[:n]` is a prefix of length `n` clamped to the text, counting from the end for a negative `n` |
| PyText.FindSpec | app.py:32 | `find` returns the leftmost occurrence, and -1 exactly when the pattern occurs nowhere |
| PyText.ReplaceAll | app.py:32 | `replace` with a replacement no longer than the pattern never lengthens the text |
| PyText.RemoveAllUnchangedIff | app.py:32 | removing a pattern leaves the text unchanged exactly when the pattern does not occur, and otherwise shortens it by at least the pattern's length |
| PyText.ReplaceBySelf | app.py:32 | a property of the `str.replace` model itself, which app.py does not rely on: replacing a pattern by itself is the identity |
| PyText.NatToString | app.py:226-227 | the decimal rendering is a non-empty digit string without a leading zero |
| PyText.IntToStringRoundTrip | app.py:226-227 | reading back the rendering of a number gives the number |
| PyText.IntToStringInjective | app.py:240-242 | a property of the `str(int)` model itself, which app.py does not rely on: distinct numbers render as distinct text |
| Helpers.CleanDomain | app.py:29-34 | a failed parse gives "", and a cleaned domain is never longer than the netloc |
| Helpers.CleanDomainIsReplace | app.py:32 | a present netloc, empty or not, is cleaned by `replace("www.", "")` |
| Helpers.CleanDomainUnchangedIff | app.py:32 | the domain equals the netloc exactly when the netloc does not contain "www." |
| Helpers.CleanDomainNotIdempotent | app.py:32 | every occurrence is removed and removal can create a new one: "wwwww.w." cleans to "www.", which cleans to "" |
| Helpers.CleanDomainExample | app.py:29-34 | the netloc of "https://www.example.com/shop" cleans to "example.com" |
| Helpers.LastTerminator | app.py:46 | the index found is -1 or holds '.', '!' or '?' |
| Helpers.LastTerminatorIsLast | app.py:46 | no terminator follows the index found |
| Helpers.SentenceCut | app.py:46-47 | group 1 of the regex match, or the text itself, is a prefix of the text |
| Helpers.EnforceLength | app.py:41-47 | the result is a prefix of the text; a text within `max_c` is returned unchanged; a non-negative `max_c` bounds the result's length |
| Helpers.EnforceLengthCut | app.py:45-47 | an over-long text is cut inside `text[:max_c]`: right after its last terminator when one stands at index 1 or later (result ends in it, at least 2 long), and exactly at `max_c` otherwise; both directions |
| Helpers.EnforceLengthLeadingTerminator | app.py:46 | ".abc" cut to 3 gives ".ab": a lone leading terminator is not a sentence end |
| Helpers.EnforceLengthIgnoresMin | app.py:41-47 | `min_c` has no effect on the result |
| Helpers.EnforceLengthIdempotent | app.py:41-47 | with `max_c >= 0`, enforcing twice equals enforcing once |
| Helpers.EnforceLengthNegativeWindow | app.py:45 | with `max_c = -1` a second application cuts again, so idempotence needs `max_c >= 0` |
| Prompts.HalfTowardZero | app.py:160 | `int(n / 2)` is within one half of `n / 2`, rounded toward zero for both signs |
| Prompts.TargetCharsInWindow | app.py:160 | `target_chars` lies inside an ordered window, and is the floor of the midpoint for a non-negative sum |
| Prompts.TargetCharsTruncates | app.py:160 | for the sum -3 the target is -1, not the floor -2 |
| Prompts.RenderOnlyUsesItsFields | app.py:226-228 | a template renders the same under bindings that agree on the fields it uses |
| Prompts.SystemPromptDependsOnWindowOnly | app.py:226-228 | the system template depends on the window, the target and the content type only |
| Prompts.PlaceholdersFillGaps | app.py:229-243 | URL, domain, brand voice and guidelines fall back to their placeholders when empty and are used verbatim otherwise; intro and bullets fall back to "" |
| Prompts.WindowRendersFaithfully | app.py:226-243 | the rendered `min_c`, `max_c` and `target_chars` read back as the window and the target |
| Generate.ReplyTextStripped | app.py:113 | what `call_openai` returns is already stripped |
| Generate.Generate | app.py:220-301 | the run, step by step, produces exactly the outcome and the request trace `Expected` specifies |
| Generate.PromptsIgnoreUserText | app.py:226-228 | the system prompt and the corrective instruction do not depend on the keyword, URL, domain or other free text |
| Generate.BlankKeywordHalts | app.py:221-223 | the keyword warning is shown exactly when the keyword is whitespace only, and then no request is made |
| Generate.EarlyStops | app.py:245-265 | the keyword, provider and client stops make no request; the run stops on an empty first answer exactly when the checks pass and the first answer is empty, after one model request and no log |
| Generate.CorrectionPolicy | app.py:267-278 | a completed run makes one or two model requests, two exactly when the first answer's length is outside the window; the correction reuses the system prompt and sends the first answer, a blank line and the corrective instruction; exactly one log request, last |
| Generate.AtMostOneCorrection | app.py:267-278 | no run makes more than two model requests or more than one log request |
| Generate.ReportedCount | app.py:280-301 | the text shown is the stripped, enforced draft and a prefix of it; the count shown and logged is its length, with the configured model; it stays within a non-negative maximum; success is shown exactly when it is inside the window |
| Generate.InWindowAnswerKept | app.py:267-282 | a first answer inside the window is shown unchanged, counted as in range, after a single model request |
| Generate.EmptyCorrectionReportsZero | app.py:274-282 | a failed or blank correction still completes the run, with an empty text and a count of 0 |
| Generate.LoggingIsBestEffort | app.py:284-295 | how logging ends changes neither the requests nor the text, count or status; it decides only the "log not recorded" notice |

## Left out

- The Streamlit page is not modelled: layout, sidebar, spinner, the
  copy-to-clipboard button (`html.escape` and the script), and the final
  markdown display (app.py:303-330). The model ends with the outcome the
  page shows.
- `urlparse` is not modelled. Its netloc, or its failure, is an input of the
  run.
- The OpenAI client is outside the model: key lookup, import, the request,
  temperature and the text of `st.error`. The result of
  `get_openai_client` and each reply are inputs. A reply is modelled down to
  its content, failure being "".
- The insides of `log_to_sheet` are outside the model: secrets, service
  account, sheet lookup, row numbering and the clock. Its ending is an
  input (row appended, silent return without a service account, or an
  exception shown as a notice). The outer `try` at app.py:285-295 ends the
  same way as the inner one.
- The template wording (`SYSTEM_PROMPT_BASE`, `USER_PROMPT_TEMPLATE`, the
  output rules and the corrective f-string) is a parameter. Templates are
  given already split into literal text and fields. Parsing of `{}` braces by
  `format` is not modelled, and neither is the `KeyError` a template with an
  unknown field would raise. `Generate` requires the system and corrective
  templates to use only the names they are given.
- Two pieces of sidebar logic are not modelled: the `ENABLE_ENGLISH` secret
  with the language choice derived from it, and the warning shown when
  `target_min > target_max`. The language is an input of the run. The window
  may be any pair of integers, including the 100..5000 the inputs allow.
- `int((target_min + target_max) / 2)` goes through a float. The model
  computes it exactly, which agrees for every window the inputs allow.
- `MODEL_DEFAULT` and the provider are configuration inputs.
- `PyText.ReplaceAll` and `PyText.Find` are defined for a non-empty pattern
  only, because the code only ever uses "www.".
- `Helpers.EnforceLength`: the length bound `|r| <= max_c` is stated for a
  non-negative `max_c` only. A negative `max_c` makes Python's slice count
  from the end (see `EnforceLengthNegativeWindow`).
- `Helpers.EnforceLengthIdempotent` requires `max_c >= 0`, for the same
  reason.
- `Generate.ReportedCount` states the bound on the count for a non-negative
  maximum only, for the same reason.
