# Support-inbox thread classifier: a Dafny model

This project models the mail library behind the member-statistics tool, in
`tools/lib/mail.py`. The tool reads the support mailbox and groups its messages
into threads. For each thread it decides:

- what kind of request it is: a voicemail on one of four lines, a demo request,
  an inquiry, a support ping, a new organisation, a sales ping or a check-in;
- whether it counts towards the statistics;
- whether it is still open.

Threads that stay open are kept in a registry of open inquiries. The registry
is stored as a text file of id and subject lines, and each run updates it.

The model has five files:

- `text.dfy`: module `Wrappers` (`Option`) and module `Text`. `Text` models the
  Python string operations the library relies on: `in` on strings, `find`,
  `lower`, `replace` and `strip`.
- `message.dfy`: module `MailConfig` holds the configuration as one `Config`
  value, plus the constants hard-coded in the source. Module `Messages` holds the
  `Message` record in normal form, `is_internal`, the support predicates and
  `extract_labels`.
- `thread_spec.dfy`: module `ThreadSpec` holds the thread state as a value.
  - It has one function per step of `__init__`, `_evaluate`, `should_it_count`
    and `add_message`.
  - `AddAll` folds `add_message` over a sequence of messages.
  - `Consistent` relates a thread's fields to the messages added to it:
    - the oldest date is the minimum date;
    - the last contact date is the latest date of a contact message;
    - the count is the number of messages minus the decrementing voicemails;
    - the thread is closed exactly when no message had an open marker.
  - The lemmas are about these functions.
- `thread.dfy`: module `Threads` holds the `Thread` class. It has the source's
  fields, and methods that update them in place.
  - Each method except `DontCount` is proved to change the object's state
    (`State()`) exactly as the matching `ThreadSpec` function does. `DontCount`
    has no such function: its contract is `!goodThread`, and its frame lets it
    change nothing else.
  - So every lemma of `ThreadSpec` holds of the object.
- `open_inquiry.dfy`: module `OpenInquiries` holds the `OpenInquiry` record,
  its equality and hash, the registry `update`, and the file format.
  - `FromLines` is the parsing loop of `from_file`.
  - `Lines` and `Render` are the lines and text that `write_to_file` writes.
  - `ReadLines` is Python's `readlines`.
  - `WriteThenRead` proves that writing a registry and reading it back gives the
    same registry.

The operator's console prompt in `should_it_count` becomes a parameter
`decide: (Message, string) -> bool`. It is the answer the operator finally
gives for a message and a reason tag. Configuration values (`config.*`) become
the fields of `Config`. Dates are `Option<int>` timestamps.

## Model

| member | source | states |
|---|---|---|
| Messages.IsInternal | tools/lib/mail.py:5-10 | An address is internal exactly when it contains the organisation's domain and contains none of the whitelisted addresses. |
| Messages.NoneOccur | tools/lib/mail.py:10 | The `all(...)` test holds exactly when no whitelist entry is a substring of the address. |
| Messages.MessageOf | tools/lib/mail.py:29-62 | Missing id, recipient and subject become "". The subject is the raw subject with every line feed and then every carriage return removed (`Without`), so it has no line breaks and keeps every other character in order. A missing sender becomes "", and a present one is normalised. Labels and date are carried over. |
| Messages.NormalizeAddress | tools/lib/mail.py:50-56 | Without both brackets the sender is just lower-cased. The result is never longer than the input, and with both brackets it holds no `>`. |
| Messages.NormalizeAddressBrackets | tools/lib/mail.py:53-56 | With both brackets, the sender is the lower-cased text strictly between the first `<` and the first `>`. It is empty when the `>` comes first, as Python's slice is. |
| Messages.NormalizeAddressIdempotent | tools/lib/mail.py:50-56 | Normalising a normalised sender changes nothing. |
| Text.Find | tools/lib/mail.py:56 | `find` gives -1 exactly when the character is absent. Otherwise it gives the index of its first occurrence. |
| Text.Lower | tools/lib/mail.py:53-56 | Lower-casing keeps the length, maps each character on its own, and leaves no capital letter. |
| Text.Without | tools/lib/mail.py:47 | `replace(c, '')` removes every `c` and keeps every other character with its multiplicity. It is the identity when `c` is absent. |
| Text.WithoutConcat | tools/lib/mail.py:47 | Removal works piece by piece: on a concatenation it is the concatenation of the removals, and a single character is dropped exactly when it is `c`. So the remaining characters keep their order. |
| Text.Strip | tools/lib/mail.py:459-460 | `strip` leaves no whitespace at either end. It never lengthens the text, and it changes nothing that has no edge whitespace. |
| Text.StripRemovesOnlyEdges | tools/lib/mail.py:459-460 | `strip` returns a contiguous slice of its input, and everything cut off before and after that slice is whitespace. |
| Text.StripLine | tools/lib/mail.py:459-460 | A line written with a trailing newline strips back to its text, provided that text has no edge whitespace. |
| Messages.IsToFromSupport | tools/lib/mail.py:78-84 | The recipient and the sender both contain the support address. |
| Messages.IsFromSupport | tools/lib/mail.py:86-91 | The sender contains the support address. |
| Messages.SupportIsNotContact | tools/lib/mail.py:86-91 | A message to and from support is from support, and a message from support is never a contact message, so it never supplies the last contact date (lines 194 and 339). |
| Messages.LabelsInMeaning | tools/lib/mail.py:93-107 | A label is collected exactly when the message carries it and the reference set names it. |
| Messages.ExtractLabelsMeaning | tools/lib/mail.py:93-107 | `extract_labels` returns the message's labels found among the stat labels and those found among the member labels. |
| Threads.Thread.constructor | tools/lib/mail.py:178-212 | The new object's state is the initial thread evaluated on its first message. That state is consistent with its one message. |
| ThreadSpec.CreatedProperties | tools/lib/mail.py:178-212 | A new thread is consistent with its one message and holds that message's stat and member labels. It fails when the message is before the cutoff. |
| Threads.Thread.Evaluate | tools/lib/mail.py:214-270 | `_evaluate` moves the object's state exactly as `ThreadSpec.Evaluate` does: voicemail, ping, sales-ping, manual-decision, check-in and open-label rules, in that order. |
| ThreadSpec.EvaluateFrame | tools/lib/mail.py:214-270 | Evaluation leaves id, subject, labels, `non_ping`, the oldest and last-contact dates and messages alone. It takes one off the count exactly for a researcher voicemail not relayed by the ping address. It closes nothing and re-opens exactly on an open marker. |
| ThreadSpec.EvaluateNeverRevives | tools/lib/mail.py:257-263 | Evaluation never turns a thread that does not count into one that does, because the prompt is reached only while the thread is good. |
| Threads.Thread.VoicemailRule | tools/lib/mail.py:228-239 | Sets the voicemail flag of the first voicemail label present. Takes one off the count for a researcher voicemail that was not relayed. |
| ThreadSpec.VoicemailPrecedence | tools/lib/mail.py:228-239 | One evaluation sets at most one voicemail flag, in the order admin, researcher, sales, finance, and unsets none. Each flag is characterised in both directions. |
| Threads.Thread.PingRule | tools/lib/mail.py:241-248 | Sets the flag of the first of demo, inquiry and support ping present. Otherwise a new-organisation label on the second counted message sets `new_org`. |
| Threads.Thread.SalesPingRule | tools/lib/mail.py:249-255 | A sales ping sets its flag and marks the thread checked. Its subject can also make it a demo request or an inquiry. |
| ThreadSpec.PingPrecedence | tools/lib/mail.py:241-255 | No ping flag is ever unset. Every ping flag is characterised exactly, in both directions. Demo outranks inquiry, which outranks support ping, which outranks new organisation. New organisation requires the count to be 2 after the voicemail rule. A sales ping's subject can add demo, or else inquiry. |
| ThreadSpec.PingFlagsBound | tools/lib/mail.py:241-255 | One evaluation sets at most one request kind (demo, inquiry, support ping, new organisation) without a sales ping, and at most two with one. |
| Threads.Thread.NonPingRules | tools/lib/mail.py:257-266 | On a thread with stat labels, the manual decision and then the check-in rule run. Otherwise both leave the thread unchanged. |
| Threads.Thread.ManualCheckRule | tools/lib/mail.py:258-263 | A to-and-from-support message (not on a new organisation) triggers the prompt, as does an internal one. Any other message leaves the verdict unchanged. |
| ThreadSpec.ManualCheckTriggers | tools/lib/mail.py:257-263 | Take a thread with stat labels that is good and unchecked. A message to and from support asks the prompt with the support tag, unless the thread is a new organisation. Failing that, an internal sender, or a message from support to an internal recipient on a thread that is not a sales ping, asks with the internal tag. A thread not awaiting a decision keeps its verdict. The verdict changes only through these two triggers. |
| Threads.Thread.CheckInRule | tools/lib/mail.py:264-266 | A check-in message with a later date moves the check-in date. |
| ThreadSpec.CheckInNeverDecreases | tools/lib/mail.py:264-266 | The check-in date never moves back. A dated check-in message on a thread with stat labels brings it up to at least that message's date. It changes only to the date of such a message. |
| Threads.Thread.OpenLabelRule | tools/lib/mail.py:268-270 | The thread becomes open exactly when some open marker occurs in some label of the message. |
| Threads.Thread.ShouldItCount | tools/lib/mail.py:272-312 | With `override`, or with neither global switch set, the prompt's answer decides and the thread is marked checked. Otherwise `COUNT_NONE` rejects and `COUNT_ALL` accepts. |
| ThreadSpec.DecisionOutcome | tools/lib/mail.py:272-312 | `checked` is set exactly on the prompt path. The verdict is the answer there, and otherwise the negation of `COUNT_NONE`. |
| Threads.Thread.AddMessage | tools/lib/mail.py:314-346 | The object's new state is `ThreadSpec.Added` of the old one, and consistency with the messages is preserved. |
| Threads.Thread.MergeLabels | tools/lib/mail.py:323-330 | Adds one to the count, merges the message's stat and member labels into the thread's sets, and recomputes `non_ping` (line 343). |
| Threads.AddLabels | tools/lib/mail.py:326-330 | The label loop leaves the thread's set equal to the union of the old set and the new labels. |
| Threads.Thread.MergeDates | tools/lib/mail.py:332-341 | A message before the cutoff fails the thread. An earlier date becomes the oldest date. A later date of a contact message becomes the last contact date. |
| ThreadSpec.AddedLabelsAndCount | tools/lib/mail.py:323-346 | After `add_message`: - the label sets are the unions with the message's labels; - `non_ping` means a stat label is present; - the count grows by one unless the message is a decrementing voicemail; - the message is appended. |
| ThreadSpec.AddedSticky | tools/lib/mail.py:332-334 | After `add_message` the thread is good only if it was good and the message meets the cutoff. It is closed exactly when it was closed and the message has no open marker. |
| ThreadSpec.AddedDates | tools/lib/mail.py:336-341 | The oldest date never moves later. A message from support or from an internal sender leaves the last contact date unchanged. |
| ThreadSpec.AddedConsistent | tools/lib/mail.py:314-346 | `add_message` preserves the relation between a thread's fields and its messages. |
| ThreadSpec.AddAllConsistent | tools/lib/mail.py:314-346 | Adding any sequence of messages preserves that relation. |
| ThreadSpec.AddAllMessages | tools/lib/mail.py:346 | Adding any sequence of messages appends them, in order, to the thread's messages. |
| ThreadSpec.CutoffFailureSticky | tools/lib/mail.py:332-334 | A thread that has failed, or that receives any message before the cutoff, does not count after any further messages. |
| ThreadSpec.OpenIsSticky | tools/lib/mail.py:268-270 | After any sequence of messages, a thread is closed exactly when it was closed and none of the messages carried an open marker. |
| ThreadSpec.CategoriesSticky | tools/lib/mail.py:228-255 | Later messages never unset a voicemail or ping flag. |
| ThreadSpec.MinDateIsMinimum | tools/lib/mail.py:336-337 | The oldest date is no later than any message date and is the date of some message. |
| ThreadSpec.LastContactIsMaximum | tools/lib/mail.py:339-341 | The last contact date is no earlier than the date of any contact message. It is the date of some contact message, never of a message from support or from an internal sender. |
| ThreadSpec.NewOrgOnSecondMessage | tools/lib/mail.py:247-248 | Take a thread whose second message has the new-organisation label and no label that outranks it, and where neither of the first two messages is a decrementing voicemail. That thread is a new organisation, whatever messages follow. |
| Threads.Thread.DontCount | tools/lib/mail.py:348-349 | Afterwards the thread does not count. |
| OpenInquiries.HashAgreesWithEquality | tools/lib/mail.py:437-441 | Two inquiries are equal exactly when they hash from the same id. Equality is reflexive and symmetric. |
| OpenInquiries.Update | tools/lib/mail.py:570-604 | Returns the number of registry entries still in the inbox and the number that left it; the two add up to the registry's size. The new registry: - its keys are the kept keys and the new ones; - a new entry wins; - every other entry is an old entry still in the inbox. |
| OpenInquiries.ClassifyEntries | tools/lib/mail.py:592-597 | The first loop counts the entries still in the inbox and those that left. It collects exactly the keys of those that left. |
| OpenInquiries.CountsPartition | tools/lib/mail.py:592-597 | Every entry is either still open or closed, never both, so the two counts add up to the registry's size. |
| OpenInquiries.DeleteEntries | tools/lib/mail.py:599-600 | The second loop removes exactly the collected keys and leaves every other entry unchanged. |
| OpenInquiries.MergedEntries | tools/lib/mail.py:603 | After the dictionary `update`: - the keys are the kept ones and the new ones; - new entries win; - the remaining entries are old entries still in the inbox. |
| OpenInquiries.DecodePairs | tools/lib/mail.py:457-461 | Every entry parsed from the file is stored under its own id. |
| OpenInquiries.Decode | tools/lib/mail.py:455-465 | The registry `from_file` returns: `n` pairs are read from `2n` or `2n + 1` lines. |
| OpenInquiries.FromLines | tools/lib/mail.py:455-465 | The parsing loop builds `Decode(lines)`: one entry per pair of lines, stripped, a later pair with the same id replacing an earlier one. |
| OpenInquiries.DecodeIgnoresOddLine | tools/lib/mail.py:457 | A last line without a partner is ignored. |
| OpenInquiries.Render | tools/lib/mail.py:626-628 | The text `write_to_file` writes: each inquiry's id and subject, each followed by a newline, in order. |
| OpenInquiries.ReadLines | tools/lib/mail.py:456 | Python's `readlines`: the text cut after every newline, and a last fragment without one kept as a line. |
| OpenInquiries.Lines | tools/lib/mail.py:626-628 | `write_to_file` writes two lines per inquiry. |
| OpenInquiries.LinesAt | tools/lib/mail.py:626-628 | Inquiry `i` is written as its id on line `2i` and its subject on line `2i + 1`, each ending in a newline. |
| OpenInquiries.ReadLinesFirst | tools/lib/mail.py:456 | `readlines` splits off a first line that contains no inner newline. |
| OpenInquiries.ReadLinesPair | tools/lib/mail.py:456 | `readlines` splits off an inquiry's id line and subject line. |
| OpenInquiries.ReadLinesOfRender | tools/lib/mail.py:626-628 | When no id or subject holds a newline, reading back the written text gives exactly the written lines. |
| OpenInquiries.DecodeLines | tools/lib/mail.py:457-461 | Parsing the first `n` pairs of written lines gives the registry of the first `n` inquiries. |
| OpenInquiries.WriteThenRead | tools/lib/mail.py:444-465 | Take inquiries whose ids and subjects have no newline and no whitespace at either end. Text written by `write_to_file` (lines 626-628) is read back by `from_file` as the same registry, keyed by id with the later inquiry winning. |

## Left out

- The mail service client (`googleAPI`) and the network are not part of this model. Messages arrive as `RawMessage` values.
- `util.parse_date` is not part of this model. The Date header arrives already parsed to an integer timestamp, or `None`.
- Messages.MessageOf: a message without a Date header gets the date `None`. The source leaves `date` unset, so a later `get_date` would raise `AttributeError`. In the model a missing date means no constraint: it never fails the cutoff and never moves the oldest, last-contact or check-in date.
- Threads.Thread.ShouldItCount: the console prompt and its output are the parameter `decide`. The answer it returns is the one the operator finally gives. The source's re-prompt after an unrecognised answer calls itself again without `override`, so with a global switch set that retry would take the switch's branch. The model does not capture that retry path.
- File I/O is not modelled. `from_file` is modelled from the lines `readlines` returns (`FromLines`). `write_to_file` is modelled as the text it writes (`Render`), in the order of a sequence of inquiries. The `config.TEST` file-name prefix, the `IOError` handling and the progress messages are left out.
- OpenInquiries.Update returns the new registry as a map rather than mutating the caller's dictionary in place. Aliasing of the dictionary is not modelled. The iteration order of the first loop does not affect its results and is not modelled.
- OpenInquiries.HashAgreesWithEquality: Python's `hash` is modelled by the id it is computed from (`HashKey`). The `isinstance` test in `__eq__` is implicit in the type.
- `convert_open` (conversion between old and new file formats) is left out: it is a one-off migration utility outside the classifier.
- `from_current_inbox` and `_from_message_list` are left out. `from_current_inbox` calls the `Thread` constructor and `add_message` without their `cutoff` argument (lines 546 and 548), so as written it cannot run.
- `Thread.__str__` is left out: at line 415 it calls the `subject` string as a function. `OpenInquiry.__repr__` (string formatting, line 435), `Message.is_spam` (a substring test against the spam list, line 70), `Message.is_idea` (a substring test on the recipient, line 76) and the getters are outside the classifier and are left out too.
- The `members=None` default of `__init__` and `add_message` is not modelled: the model always takes a member label set. With `None`, `extract_labels` would raise `TypeError` at line 105 (`label in None`) as soon as the message has a label, which the caller `from_current_inbox` would hit at lines 546 and 548 once a cutoff is supplied there.
- Eleven of a thread's thirteen boolean flags are grouped into records; `non_ping` and `closed` stay plain fields. Nine category flags go into two: `Voicemails` (the four voicemail lines) and `Pings` (the five ping kinds). The other two, `good_thread` and `checked`, form the `Verdict` record.
