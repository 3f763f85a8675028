# Khmer–Chinese translation bot: a verified model of its text pipeline

The bot (`bot.py`) takes a Telegram text message, decides whether it is Khmer
or Chinese from the Unicode blocks its characters fall in, and hands the text
to the NLLB translation model in the opposite direction. This project models
the four pieces of logic in that pipeline and proves their properties:

- **Language detector** (`detect_language`), module `Detection`. It keeps the
  word characters and the characters in the Khmer block (U+1780–U+17FF) and
  the CJK Unified Ideographs block (U+4E00–U+9FFF). It answers `km` when more
  than a tenth of the kept characters are Khmer. Otherwise it answers `zh`
  when more than a tenth are CJK. Otherwise it answers nothing.
- **Text normaliser** (`NLLBTranslator.clean_text`), module `Cleaning`. It
  strips the ends, collapses each whitespace run to one space, then deletes
  every character outside the allow-list. The allow-list is word characters,
  whitespace, the two blocks and `.,!?;:'"()-`.
- **Translation adapter** (`NLLBTranslator`), module `Translator`. This is a
  class with the fields `modelLoaded`, `translationCount`, `lastTime` and the
  constant `langCodes`. `Translate` checks three guards in order: the model is
  loaded, the cleaned text is non-empty, and both codes are known. Only then
  does it call the model. Only a call that returns increments the counter and
  sets the timestamp.
- **Message routing** (`handle_message`), module `Handler`. It strips the
  text, then rejects an empty text and then one over 1000 characters. It
  detects the language, picks the direction, calls the adapter and maps the
  result to a reply.

Module `Text` holds the shared vocabulary: the whitespace and block
predicates, and filtering, counting and subsequences over strings.

How the model stands in for things outside the program:

- Python's `\w` is the parameter `word: char -> bool`, given to every function
  that uses it. Every result holds for any such classifier.
- Python's `\s` and the characters `str.strip()` removes are written out as
  `Text.IsSpace`. These are the characters of general category Zs plus those
  with bidirectional class WS, B or S.
- The float test `k / t > 0.1` becomes the integer test `10 * k > t`. The two
  agree for every length a message can have. When `10 * k == t`, the quotient
  rounds to the same double as the literal `0.1`.
- The model call (`tokenizer`, `generate`, `batch_decode`) is the parameter
  `model`. It maps the cleaned text and the target's model tag to
  `Decoded(text)` or `Raised(message)`. The clock is the parameter `now`.
  Whether the model loaded is the constructor's argument.
- A `reply_text` that raises inside `handle_message`'s `try` block is the
  parameter `sendRaised`. It turns the reply into the "Error during
  translation" reply.

Plain observations from the code:

- The source language's tag is looked up and checked (bot.py:73-76) but
  never given to the tokenizer. Only the target tag reaches the model, where
  it becomes `forced_bos_token_id`. The model's `model` parameter therefore
  receives only the target tag.
- `handle_message` can never reach the adapter's "Empty text" and
  "Unsupported language" guards. Only "Model not loaded" can fail for a routed
  message (`Handler.RoutedPassesGuards`).

Where each source function is defined (these definitions carry no contract
of their own; the lemmas in the table below state their properties):

- `detect_language` (bot.py:96-111) is `Detection.Detect`. Its character
  class (bot.py:97) is `Detection.Detectable`.
- `clean_text` (bot.py:57-63) is `Cleaning.Clean`. Its parts are:
  - `str.strip()` (bot.py:60), which is `Cleaning.Strip`, built from
    `Cleaning.TrimStart` and `Cleaning.TrimEnd`;
  - `re.sub(r'\s+', ' ', …)` (bot.py:60), which is `Cleaning.Collapse`;
  - the allow-list class of bot.py:62, which is `Cleaning.CleanKeeps`, with
    its punctuation in `Cleaning.Punctuation`.
- `\s` (bot.py:60, 62) is `Text.IsSpace`.
- `lang_codes` (bot.py:36-39) is `Translator.LangTags`. The truthiness test
  of `lang_codes.get(...)` (bot.py:73-76) is `Translator.Supported`.
- The body of `translate` (bot.py:66-93) is split in three:
  - `Translator.Guard` is the three guards;
  - `Translator.Outcome` is the returned pair;
  - `Translator.Succeeds` is the path that updates the counter.
- The body of `handle_message` (bot.py:159-188) is split in four:
  - `Handler.RouteMessage` is the checks up to detection (bot.py:159-172);
  - `Handler.Respond` is the reply for the adapter's result (bot.py:179-188);
  - `Handler.HandleReply` is their composition;
  - `Handler.CountsTranslation` is when a message is counted.

## Model

| member | source | states |
|---|---|---|
| Text.Filter | bot.py:97 | deleting the characters outside a class keeps exactly the characters of the input that are in the class, and never lengthens it |
| Text.Count | bot.py:100-101 | the count of a class is at most the length, and it is zero exactly when no character is in the class |
| Text.FilterLength | bot.py:97-102 | the length of the filtered text (`total_chars`) is the number of characters of the input in the class |
| Text.CountFiltered | bot.py:97-101 | counting Khmer (or CJK) characters after the filter gives the count in the raw text, because the filter keeps both blocks |
| Text.FilterIsSubsequence | bot.py:62 | a regex deletion yields a subsequence of its input |
| Cleaning.TrimStartShape | bot.py:60 | left stripping removes exactly the longest all-whitespace prefix |
| Cleaning.TrimEndShape | bot.py:60 | right stripping removes exactly the longest all-whitespace suffix |
| Cleaning.StripShape | bot.py:60 | `strip()` leaves no whitespace at either end, is empty exactly for all-whitespace input, drops only whitespace, and is idempotent |
| Cleaning.Collapse | bot.py:60 | after `re.sub(r'\s+', ' ')` the only whitespace is the plain space, no two whitespace characters are adjacent, the text is no longer, and it starts on whitespace exactly when the input does (where each space goes is stated by the next three rows) |
| Cleaning.CollapseRun | bot.py:60 | a whitespace run of any length and kind becomes one plain space |
| Cleaning.CollapseConcat | bot.py:60 | collapsing a concatenation that does not cut a whitespace run is collapsing each part, so every run is replaced in its own place |
| Cleaning.CollapseVisibleChar | bot.py:60 | a non-whitespace character is left as it is; with the two rows above this determines the collapse on every text |
| Cleaning.CollapseKeepsVisible | bot.py:60 | collapsing leaves the non-whitespace text unchanged |
| Cleaning.CollapseLast | bot.py:60 | the collapsed text ends on whitespace exactly when the input does |
| Cleaning.CollapseHasSpace | bot.py:60 | the collapsed text contains a space exactly when the input contains whitespace |
| Cleaning.CleanAllowed | bot.py:60-62 | every character of `clean_text`'s output is a word character, a block character, allowed punctuation or the plain space, and the plain space is its only whitespace |
| Cleaning.CleanSubsequence | bot.py:60-62 | the output is a subsequence of the collapsed input, so its length is at most the input's |
| Cleaning.CleanMembership | bot.py:57-63 | a non-whitespace character is in the output exactly when it is in the input and on the allow-list |
| Cleaning.CleanEmpty | bot.py:57-63 | the output is empty exactly when no character of the stripped input is on the allow-list |
| Cleaning.CleanTrimsAndCollapses | bot.py:60-62 | `"  a   b  "` cleans to `"a b"` for any two allowed non-whitespace characters `a` and `b` |
| Cleaning.CleanNotIdempotent | bot.py:60-62 | `"@ a"` cleans to `" a"`, which cleans to `"a"`: an edge space can survive, so cleaning is not idempotent |
| Detection.Code | bot.py:107-110 | Khmer is reported as `km` and Chinese as `zh`, and no language gets the other's code |
| Detection.DetectByShares | bot.py:96-111 | with K Khmer and C CJK characters among T detectable ones, the result is `km` iff 10K > T, `zh` iff 10K <= T < 10C, and none iff both shares are at most a tenth (including T = 0) |
| Detection.KhmerFirst | bot.py:107-108 | a text more than a tenth Khmer is `km` whatever its CJK share |
| Detection.NothingDetectable | bot.py:97-99 | a text with no word, Khmer or CJK character has no language |
| Detection.DetectedHasScript | bot.py:100-111 | a detected text contains a Khmer or a CJK character |
| Detection.AllKhmerIsKm | bot.py:100-108 | a non-empty all-Khmer text is `km` |
| Detection.GreetingIsKm | bot.py:96-111 | the greeting `សួស្តី` is detected as `km` |
| Translator.GuardOrder | bot.py:66-76 | not loaded gives "Model not loaded" regardless of the other arguments; then an empty cleaned text gives "Empty text"; then a missing code gives "Unsupported language"; the model is called exactly when all three pass |
| Translator.OutcomeShape | bot.py:78-93 | a translation is present exactly when the guards pass and the call returns; it is the decoded text (even when empty) with "NLLB (Meta)"; otherwise the reason is the failing guard's or the exception's text |
| Translator.SupportedCodes | bot.py:36-39 | exactly `km` and `zh` have tags, so a code such as `fr` is unsupported |
| Translator.BlankTextIsEmpty | bot.py:69-71 | a loaded adapter rejects a whitespace-only text with "Empty text" |
| Translator.NLLBTranslator.constructor | bot.py:29-55 | a new adapter has no translations, no timestamp, the two language tags, and is loaded exactly when loading succeeded |
| Translator.NLLBTranslator.Translate | bot.py:65-93 | returns the outcome above; a successful call raises the counter by exactly one and sets the timestamp to `now`; every other path leaves both unchanged; the loaded flag never changes; the adapter invariant is kept |
| Handler.Direction | bot.py:174 | Khmer is translated from `km` to `zh` and Chinese from `zh` to `km`: the source is the detected code, the two codes differ, and both are configured |
| Handler.RouteOrder | bot.py:159-172 | an empty stripped text is rejected first, then one over 1000 characters, before detection; undetected text is never forwarded; a forwarded text is the stripped text with its detected language |
| Handler.RoutedPassesGuards | bot.py:169-178 | a forwarded message always passes the "Empty text" and "Unsupported language" guards |
| Handler.ForwardedReplies | bot.py:178-188 | a forwarded message gets the translation when the model is loaded and decodes non-empty text, "Translation failed" otherwise, and "Error" when sending raised |
| Handler.CountedTranslations | bot.py:174-178 | a message is counted exactly when the model is loaded, the message is forwarded, and the model call returns |
| Handler.GreetingGoesKmToZh | bot.py:159-174 | `សួស្តី` is forwarded as Khmer, translated from `km` to `zh` |
| Handler.HandleMessage | bot.py:158-188 | sends the reply given by routing and the adapter's outcome; the adapter's counter and timestamp move exactly when a translation is counted |

## Left out

- Telegram plumbing is not modelled: `Application`, handler registration,
  `run_polling`, `send_chat_action`, and the texts of `/start`, `/help` and
  `/status`. These are I/O through a library the model does not include.
- A `reply_text` that raises outside the `try` block (the empty, too-long and
  undetected replies) is not modelled. It is a failure of the I/O library.
- Loading the tokenizer and the model, the device choice, `tokenizer(...)`,
  `generate` and `batch_decode` are not modelled. These are foreign calls,
  replaced by the constructor's `loadSucceeded` and by the `model` parameter.
  `max_length=512` and `skip_special_tokens` belong to that call.
- `datetime.now().strftime(...)` is a wall clock. It is the opaque string
  `now`.
- Logging, `load_dotenv` and the `BOT_TOKEN` check at start-up are I/O and
  are not modelled.
- IEEE double division in the ratios is not modelled. It is replaced by
  integer cross-multiplication, which gives the same answers.
- The exact Unicode extent of `\w` is not modelled. It is the parameter
  `word`.
- Python strings may hold lone surrogate code points, which a Dafny `char`
  cannot. Such text is outside the model.
- Unsynchronised counter updates from concurrent handlers are not modelled.
  Each `Translate` is one atomic step.
