# PII detector and redactor, modelled in Dafny

This project models the detection-and-masking engine of the CSV PII redactor
`detector_full_candidate_name.py`. A record maps field names to string values.
The model covers three parts:

- the classifier `detect_pii`, which gives one boolean flag to each of the nine recognised field names;
- the aggregate `is_pii = any(flags.values())`;
- the redactor `redact_record`, which overwrites every flagged field with a mask specific to that field.

It has four modules:

- `PyStr` (`pystr.dfy`): the Python `str` operations the masks are built from. These are clamping slices `s[:n]` and `s[-n:]`, `split(c)`, `split()`, `join` and `replace(c, "")`, proved with their round trips.
- `Patterns` (`patterns.dfy`): the six compiled regular expressions as exact predicates. `re.search` is truthy when some start index and some split points make every part of the pattern fit. `\b` is a change between word and non-word characters, with the ends of the string counting as non-word.
- `Masks` (`masks.dfy`): `mask_phone` … `mask_device` and the address marker, as pure functions.
- `Detector` (`detector.dfy`): `detect_pii` and `redact_record` as methods with the source's steps and loops. Each is proved equal to a specification function, `Classify` or `Redacted`, and the detection and redaction rules are proved as lemmas about those functions. The flag dictionary of `detect_pii` always holds the same nine keys, so it is a sequence of nine booleans in the source's key order, read with `Get` and written with `Set`. The nine tests are pure, so `TestsOf` evaluates them up front, and the methods branch on their outcomes in the source's order.

The detection rules, as the code has them:

- **Standalone fields.** `phone`, `aadhar`, `passport` and `upi_id` are flagged when present and their own pattern matches their value.
- **Combinatorial fields.** `email` and `ip_address` are eligible when their pattern matches. `name`, `address` and `device_id` are eligible when present and non-empty. When two or more are eligible, all eligible ones are flagged.
- **The name.** A present, non-empty `name` is flagged outright, even when it is the only eligible field (line 74), although the comment at line 85 says combinatorial fields are marked only when more than one exists. The model follows the code: `NameFlag` and `NameAloneIsPii` state this behaviour.

The masks of `upi_id` and `email` raise on a value that does not hold exactly one '@', because `split("@")` is unpacked into two names. The mask of `passport` raises on the empty string. These crashes are the preconditions of the masks. `RedactRecord` requires `CanRedact`, so no mask it applies raises:

- `ClassifyCanRedact` shows this holds for the classifier's own flags whenever `upi_id` and `email` hold at most one '@'.
- `UpiMatchWithTwoAts` shows the upi pattern accepts "ab@cd@ef", and `UpiRecordNotRedactable` shows `redact_record` raises on a record holding only such a upi_id.

The code has no fallback for malformed values, and neither does the model.

## Model

| member | source | states |
|---|---|---|
| PyStr.Take | detector_full_candidate_name.py:23 | `s[:n]` has length min(n, len s) and is a prefix of s |
| PyStr.Last | detector_full_candidate_name.py:23 | `s[-n:]` has length min(n, len s) and is a suffix of s |
| PyStr.Count | detector_full_candidate_name.py:33 | the number of occurrences is zero exactly when the character is absent |
| PyStr.CountAppend | detector_full_candidate_name.py:33 | the occurrences in a concatenation are those of its two parts added up |
| PyStr.CountTwo | detector_full_candidate_name.py:33 | two occurrences of a character give a count of at least two |
| PyStr.SplitOn | detector_full_candidate_name.py:45 | `s.split(c)` has one piece more than there are separators, and no piece holds the separator |
| PyStr.JoinSplitOn | detector_full_candidate_name.py:45-46 | joining the pieces of `s.split(c)` with c gives back s |
| PyStr.SplitOnJoin | detector_full_candidate_name.py:45-46 | splitting a join of separator-free pieces gives back those pieces |
| PyStr.SplitOnOnce | detector_full_candidate_name.py:33 | with one occurrence of c at j, `split(c)` is the text before j and the text after it |
| PyStr.TokenLen | detector_full_candidate_name.py:37 | the leading run of non-whitespace stops at whitespace or the end |
| PyStr.Words | detector_full_candidate_name.py:37 | every token of `split()` is non-empty and whitespace-free |
| PyStr.WordsJoin | detector_full_candidate_name.py:37-38 | splitting a single-space join of tokens gives back those tokens |
| PyStr.WordsOfToken | detector_full_candidate_name.py:37 | a non-empty whitespace-free string splits into itself alone |
| PyStr.TokenLenAppend | detector_full_candidate_name.py:37 | the leading token is not extended by text that follows a whitespace character |
| PyStr.WordsAtSpace | detector_full_candidate_name.py:37 | `split()` cuts at every whitespace character: the tokens of a, a space, then b are the tokens of a followed by those of b |
| PyStr.RemoveChar | detector_full_candidate_name.py:26 | `replace(c, "")` removes every c, shortens by the count of c, and changes a c-free string not at all |
| PyStr.RemoveCharAppend | detector_full_candidate_name.py:26 | deleting a character distributes over concatenation |
| Patterns.PhoneMatchIsWholeToken | detector_full_candidate_name.py:12 | a phone match is not part of a longer run of word characters on either side |
| Patterns.PhoneMatchTenChars | detector_full_candidate_name.py:12 | a ten-character string matches exactly when it is a digit 6-9 and nine more digits |
| Patterns.NoPhoneInElevenDigits | detector_full_candidate_name.py:12 | no string of exactly eleven digits holds a phone match |
| Patterns.PassportMatchLength | detector_full_candidate_name.py:14 | a passport match needs at least eight characters |
| Patterns.UpiMatchHasAt | detector_full_candidate_name.py:15 | a value the upi pattern accepts holds an '@' |
| Patterns.EmailMatchHasAt | detector_full_candidate_name.py:16 | a value the email pattern accepts holds an '@' |
| Patterns.PhoneExample | detector_full_candidate_name.py:12 | "9876543210" matches the phone pattern |
| Patterns.AadharExamples | detector_full_candidate_name.py:13 | "1234 5678 9012" and "123456789012" match the aadhar pattern |
| Patterns.PassportExample | detector_full_candidate_name.py:14 | "P1234567" matches the passport pattern |
| Patterns.UpiExample | detector_full_candidate_name.py:15 | "user@upi" matches the upi pattern |
| Patterns.EmailExample | detector_full_candidate_name.py:16 | "jane@x.com" matches the email pattern |
| Patterns.IpExample | detector_full_candidate_name.py:17 | "192.168.1.10" matches the ip pattern |
| Masks.MaskPhone | detector_full_candidate_name.py:22-23 | a value of two or more characters becomes ten: its first two, six X, its last two |
| Masks.MaskPhoneIdempotent | detector_full_candidate_name.py:22-23 | masking a masked phone changes nothing when the value had two or more characters |
| Masks.MaskPhoneExample | detector_full_candidate_name.py:22-23 | "9876543210" is masked to "98XXXXXX10" |
| Masks.MaskAadhar | detector_full_candidate_name.py:25-27 | the result is at most four non-space characters followed by " XXXX XXXX" |
| Masks.MaskAadharKeepsFirstGroup | detector_full_candidate_name.py:25-27 | a value starting with four non-space characters keeps exactly those four |
| Masks.MaskAadharExample | detector_full_candidate_name.py:25-27 | "1234 5678 9012" is masked to "1234 XXXX XXXX" |
| Masks.MaskAadharIdempotent | detector_full_candidate_name.py:25-27 | masking a masked aadhar changes nothing when four non-space characters were kept |
| Masks.MaskPassport | detector_full_candidate_name.py:29-30 | a non-empty value becomes its first character and seven X |
| Masks.MaskPassportIdempotent | detector_full_candidate_name.py:29-30 | masking a masked passport changes nothing |
| Masks.MaskUpi | detector_full_candidate_name.py:32-34 | with exactly one '@', the result again has exactly one '@', keeps the domain and masks the user part |
| Masks.SplitAtSeparator | detector_full_candidate_name.py:33 | two separator-free pieces joined by one separator split back into those two pieces |
| Masks.MaskUpiAt | detector_full_candidate_name.py:32-34 | with the only '@' at j, the mask is two leading and two trailing characters of the user around "XXX", then "@" and the domain |
| Masks.MaskUpiIdempotent | detector_full_candidate_name.py:32-34 | masking a masked UPI id changes nothing when the user part had two or more characters |
| Masks.MaskToken | detector_full_candidate_name.py:38 | a token becomes its first character and "XXX" |
| Masks.MaskTokens | detector_full_candidate_name.py:38 | the list comprehension masks every token and keeps their number |
| Masks.MaskName | detector_full_candidate_name.py:36-38 | the tokens of the result are the masked tokens of the input, and the result is those tokens joined by single spaces |
| Masks.MaskNameTokens | detector_full_candidate_name.py:36-38 | the name mask keeps the token count, and each token becomes its first character and "XXX" |
| Masks.MaskNameIdempotent | detector_full_candidate_name.py:36-38 | masking a masked name changes nothing |
| Masks.MaskNameExample | detector_full_candidate_name.py:36-38 | "Jane Doe" is masked to "JXXX DXXX" |
| Masks.MaskEmail | detector_full_candidate_name.py:40-42 | with exactly one '@', the result again has exactly one '@', keeps the domain, and its local part is two characters and "XXX" |
| Masks.MaskEmailAt | detector_full_candidate_name.py:40-42 | with the only '@' at j, the mask is two characters of the local part, "XXX@" and the domain |
| Masks.MaskEmailParts | detector_full_candidate_name.py:40-42 | for '@'-free local and domain parts, the mask of local@domain keeps the domain |
| Masks.MaskEmailExample | detector_full_candidate_name.py:40-42 | "jane@x.com" is masked to "jaXXX@x.com" |
| Masks.MaskEmailIdempotent | detector_full_candidate_name.py:40-42 | masking a masked email changes nothing when the local part had two or more characters |
| Masks.TakePieces | detector_full_candidate_name.py:46 | `octets[:2]` is a prefix of the list, of length min(2, count) |
| Masks.MaskIp | detector_full_candidate_name.py:44-46 | the pieces of the result are the first two pieces of the input and then "x", "x" |
| Masks.JoinFour | detector_full_candidate_name.py:46 | joining four pieces interleaves the separator three times |
| Masks.MaskIpDottedQuad | detector_full_candidate_name.py:44-46 | a.b.c.d is masked to a.b.x.x |
| Masks.MaskIpIdempotent | detector_full_candidate_name.py:44-46 | masking a masked address changes nothing when the value held a dot |
| Masks.MaskDevice | detector_full_candidate_name.py:48-49 | a value of three or more characters becomes ten: its first three, "XXXX", its last three |
| Masks.MaskDeviceIdempotent | detector_full_candidate_name.py:48-49 | masking a masked device id changes nothing when the value had three or more characters |
| Detector.FieldOf | detector_full_candidate_name.py:98-116 | a key names a field exactly when it is that field's spelling |
| Detector.Set | detector_full_candidate_name.py:88 | `flags[f] = True` sets the flag of f and leaves the other eight as they were |
| Detector.TestNeedsKey | detector_full_candidate_name.py:62-83 | every one of the nine tests fails when its key is absent from the record |
| Detector.Classify | detector_full_candidate_name.py:54-90 | one flag per recognised field, each flag equal to its detection rule |
| Detector.StandaloneFlags | detector_full_candidate_name.py:55-69 | all nine flags start false; each standalone flag becomes true exactly when its key is present and its pattern matches |
| Detector.CollectCombinatorial | detector_full_candidate_name.py:72-83 | the name flag is set exactly when the name test passes, and no other flag changes; the list holds exactly the combinatorial fields whose test passed, and its length is the number of tests that passed, so none is listed twice |
| Detector.MarkCombinatorial | detector_full_candidate_name.py:86-88 | with more than one field collected, every collected flag is set; other flags are unchanged |
| Detector.DetectPii | detector_full_candidate_name.py:54-90 | the returned flags are `Classify` of the record |
| Detector.IsPii | detector_full_candidate_name.py:142 | a flag map is PII exactly when some flag is set |
| Detector.MaskFor | detector_full_candidate_name.py:111-112 | a flagged address is replaced by "[REDACTED_PII]" |
| Detector.Redacted | detector_full_candidate_name.py:95-117 | the keys are kept; unflagged and unrecognised keys are unchanged; each flagged key holds its field's mask |
| Detector.RedactRecord | detector_full_candidate_name.py:95-117 | the record built key by key is `Redacted` of the record and flags |
| Detector.ScanRecord | detector_full_candidate_name.py:141-143 | one row's `is_pii` and redacted record are those of `Classify` |
| Detector.AbsentNeverFlagged | detector_full_candidate_name.py:62-83 | a field whose key is absent is never flagged |
| Detector.EmptyRecord | detector_full_candidate_name.py:135-142 | the empty record, also used for invalid JSON, gets all flags false, and `is_pii` is false |
| Detector.StandaloneIndependent | detector_full_candidate_name.py:62-69 | a standalone flag depends only on the value at its own key |
| Detector.ThresholdRule | detector_full_candidate_name.py:76-88 | email, address, ip_address and device_id are flagged exactly when eligible and some other combinatorial field is also eligible |
| Detector.OtherPassed | detector_full_candidate_name.py:86 | once the test of one combinatorial field passed, more than one passed exactly when the test of another combinatorial field passed |
| Detector.TwoEligible | detector_full_candidate_name.py:86 | more than one combinatorial test passed exactly when two distinct combinatorial fields are eligible |
| Detector.SingleEligibleNotFlagged | detector_full_candidate_name.py:86-88 | with at most one eligible field, none of email, address, ip_address, device_id is flagged |
| Detector.NameFlag | detector_full_candidate_name.py:73-75 | the name is flagged exactly when present and non-empty |
| Detector.NameAloneIsPii | detector_full_candidate_name.py:73-75 | a record holding only a non-empty name is PII |
| Detector.IsPiiRule | detector_full_candidate_name.py:142 | a record is PII exactly when a standalone pattern matches, the name is present and non-empty, or two distinct combinatorial fields are eligible |
| Detector.PhoneOnly | detector_full_candidate_name.py:54-90 | a record holding only "9876543210" as phone gets the phone flag alone |
| Detector.PhoneOnlyRedacted | detector_full_candidate_name.py:95-117 | that record is redacted to {"phone": "98XXXXXX10"} |
| Detector.RedactNothing | detector_full_candidate_name.py:95-117 | with no flag set, redaction returns the record unchanged |
| Detector.FlaggedAddressRedacted | detector_full_candidate_name.py:111-112 | a flagged address becomes "[REDACTED_PII]" |
| Detector.EligibleFlagged | detector_full_candidate_name.py:72-88 | a flagged combinatorial field is eligible |
| Detector.ClassifyCanRedact | detector_full_candidate_name.py:29-42 | with at most one '@' in upi_id and email, no mask applied to the classifier's flags raises |
| Detector.UpiMatchWithTwoAts | detector_full_candidate_name.py:15 | "ab@cd@ef" matches the upi pattern yet holds two '@' |
| Detector.UpiRecordNotRedactable | detector_full_candidate_name.py:32-34 | a record holding only a upi_id the pattern accepts but with more than one '@' is flagged and cannot be masked |
| Detector.NameAndEmailFlagged | detector_full_candidate_name.py:73-88 | a non-empty name with a matching email flags both |
| Detector.NameAndEmailRedacted | detector_full_candidate_name.py:95-117 | such a record is redacted to the masked name and the email with the local part masked and domain intact |
| Detector.RedactNameEmail | detector_full_candidate_name.py:95-117 | with name and email flagged, redaction masks both and keeps nothing else |

## Left out

- The `main` driver is not modelled: CSV reading and writing, JSON decoding and encoding, the output file name and the messages it prints. A record that fails to decode becomes the empty record, and `EmptyRecord` covers it.
- Values are strings. The `str(...)` coercion of non-string JSON values is not modelled. Neither is the truthiness of non-string values in `data["name"]` and the other non-empty tests.
- Characters are ASCII. The Unicode meaning of `\w`, `\d`, `\s` and `str.split()` is not modelled, and whitespace is Python's ASCII whitespace.
- The patterns are modelled by what `re.search` decides: whether a match exists. The backtracking engine and the position of the first match are not modelled, because the detector only tests truthiness.
- The iteration order of the dictionaries is not modelled. Each key's new value depends only on that key, so redaction visits the keys in any order.
- Detector.RedactRecord: requires `CanRedact` instead of modelling the `ValueError` and `IndexError` that `mask_upi`, `mask_email` and `mask_passport` raise.
- Masks.MaskUpi, Masks.MaskEmail, Masks.MaskPassport: the raising cases are preconditions, not an error result.
- No fallback to full redaction on malformed values: the code has none.
