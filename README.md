# JobNix rules, modelled and proved in Dafny

JobNix is a Django job board for young job seekers, employers and training institutions, with browser scripts for its sign-up, sign-in and theme pages. This project models the self-contained rules of that system:

- **Mentor matching and requests.** The skill-overlap score between a mentee and a mentor, and the ranked mentor list. The mentorship request lifecycle: creating a request, accepting or rejecting it, and registering as a mentor. The list and the request view are modelled as written. Each has a corrected variant beside it for the two defects under "## Findings".
- **E-mail verification.** Issuing, re-issuing and checking a six-digit code that lives 24 hours.
- **Administrator bootstrap.** The management command and the post-migrate hook that create or promote the administrator named by `ADMIN_EMAIL`/`ADMIN_PASSWORD`. Both pick the least free numeric suffix for a new username.
- **Browser-side validators.** The sign-up password-strength meter, the e-mail and phone patterns, and both `validateForm` functions. Also login's `validateField`.
- **Theme switcher.** The `document.cookie` lookup and the light/dark theme toggle.
- **Template filters.** `split` and `trim`.
- **Model helpers:**
  - the job salary text, deadline expiry and one-time reference number;
  - the course content display URL and the one-time payment and certificate identifiers;
  - the unique-per-pair tables;
  - the course admin's auto-approval.

Each core source file has a module of its own:

- mentors/models.py: `MentorModels`
- mentors/views.py: `MentorMatching` (score and list) and `Mentorship` (requests, answers, registration)
- accounts/models.py: `AccountModels`; the users table and verification records as one mutable store, `AccountStore`
- accounts/utils.py: `EmailVerificationFlow`
- accounts/management/commands/create_admin.py and accounts/apps.py: `AdminBootstrap`
- staticfiles/js/signup.js: `SignupValidation`
- static/js/login.js: `LoginValidation`
- static/js/theme-switcher.js: `ThemeSwitcher`
- accounts/templatetags/account_filters.py: `AccountFilters`
- jobs/models.py: `JobModels`
- education/models.py: `EducationModels`
- education/admin.py: `CourseAdmin`

The two validators share `FormErrors`. Shared helpers live in:

- `Wrappers` (Option / Result);
- `Text`: each language's whitespace, strip/trim, ASCII case, `str.split`/`join`, `str(int)`/`int(str)`, the syntax `float()` accepts, and UTF-16 length;
- `Tables`: a `unique_together` table as a sequence of rows;
- `Identifiers`: the text of a version-4 uuid, section 4.4 of RFC 4122.

The form of the model follows the form of each source file:

- **Code that updates state is imperative Dafny.** This covers:
  - the code loops: the username `while`, `getCookie`'s `for` and the mentor append loop;
  - the step-by-step updates of a local: the strength counter and the `isValid` flag of both `validateForm` functions;
  - the records the code changes in place: the verification record, the user row, `Job`, `Payment` and `Certificate`, the admin's `Course` object, the mentorship tables and the page's theme state.
- **Each such method is proved against a specification function.** Its properties are proved as lemmas.
- **Pure decisions are functions.** They have named results and contracts.

Every input the code takes from outside is a parameter:

- the clock (`now`, in microseconds);
- random draws (`picks` for `random.choices`, the uuid text for `uuid.uuid4()`);
- `slugify`, `decodeURIComponent` (`decode`);
- whether `send_mail` succeeded;
- the HTTP method and the POSTed fields.

## Model

| member | source | states |
|---|---|---|
| MentorModels.ParseMentorStatus | mentors/models.py:8-13 | only the four mentor statuses parse, each back to its own stored value |
| MentorModels.ParseRequestStatus | mentors/models.py:44-49 | only pending/accepted/rejected/cancelled parse, each to the status with that value |
| MentorModels.ParseSessionStatus | mentors/models.py:72-77 | only the four session statuses parse |
| MentorModels.ParseGoalStatus | mentors/models.py:102-106 | only the three goal statuses parse |
| MentorMatching.TokensOf | mentors/views.py:45-46 | the tokens are stripped, lower-case and non-empty, no more than the pieces; all-blank pieces give none |
| MentorMatching.AsWrittenMenteeHasNoSkills | mentors/views.py:38-40 | read through `youth_profile` as written, every mentee has no skill pieces and every mentor scores 0 |
| MentorMatching.MenteeTokensFromProfile | accounts/models.py:67-69 | read through `job_seeker_profile`, the tokens are those of the profile's skills, or none without a profile |
| MentorMatching.MatchCount | mentors/views.py:50 | the count is at most the number of skills; 0 iff no skill has a partner; all iff every skill has one |
| MentorMatching.MatchScore | mentors/views.py:45-51 | the score's total is the mentee's token count; matches is 0 iff no token has a partner; no expertise gives 0 |
| MentorMatching.ScoreInRange | mentors/views.py:48-51 | every score lies in [0, 100] |
| MentorMatching.QuotientInUnit | mentors/views.py:51 | a count of matched tokens over the token count lies between 0 and 1 |
| MentorMatching.IdenticalSkillsScoreFull | mentors/views.py:50-51 | a mentor whose expertise tokens are the mentee's scores 100 |
| MentorMatching.FullScore | mentors/views.py:51 | every token matched gives exactly 100 |
| MentorMatching.SelfMatchCount | mentors/views.py:50 | every token partners itself (`skill in exp` with equal strings) |
| MentorMatching.Entries | mentors/views.py:42-59 | one entry per mentor, in query order |
| MentorMatching.Browsable | mentors/views.py:19 | exactly the active, verified mentors, and nothing else |
| MentorMatching.BrowsableAppend | mentors/views.py:19 | the filter works row by row and keeps table order: filtering a concatenation concatenates the filtered parts |
| MentorMatching.BrowsableOne | mentors/views.py:19 | a single row is kept exactly when its mentor is active and verified |
| MentorMatching.InsertRanked | mentors/views.py:62 | inserting keeps every entry (multiset) |
| MentorMatching.SortByScore | mentors/views.py:62 | the sorted list is a permutation of its input |
| MentorMatching.InsertRankedKeepsRanked | mentors/views.py:62 | inserting an earlier-queried entry into a ranked list keeps it ranked |
| MentorMatching.HeadOutranksInsert | mentors/views.py:62 | when an entry goes behind the head of a ranked list, the head outranks every entry that follows it |
| MentorMatching.SortByScoreRanked | mentors/views.py:62 | the sort is by descending score, and stable: ties keep query order |
| MentorMatching.SortByScoreTies | mentors/views.py:62 | when every score is equal the list is left as it was |
| MentorMatching.RankedIsNonIncreasing | mentors/views.py:62 | a ranked list's scores never increase |
| MentorMatching.MentorshipList | mentors/views.py:12-69 | as written: None (redirect) iff the user is not a job seeker; otherwise exactly the active verified mentors' entries in table order, each scored 0, because the skills are read through `youth_profile` |
| MentorMatching.MentorshipListCorrected | mentors/views.py:12-69 | with the skills read through `job_seeker_profile`: None iff not a job seeker; otherwise a permutation of the active verified mentors' entries, ranked by descending score, ties in table order |
| MentorMatching.RankMentors | mentors/views.py:42-62 | the append loop builds one entry per mentor in query order and the stable sort ranks them: the result is SortByScore of Entries, a permutation of them, and Ranked |
| MentorMatching.NoTokensKeepsTableOrder | mentors/views.py:48-62 | with no skill tokens the list stays in table order |
| Mentorship.FindRequest | mentors/views.py:159 | finds the request with that id addressed to that mentor, or None exactly when there is none |
| Mentorship.NewRequest | mentors/views.py:110-116 | a new request is pending, unanswered, for the pair, with the computed score |
| Mentorship.AsWrittenGuardAdmitsDuplicate | mentors/views.py:82-84 | after a rejected request the view's guard admits a second one, and the insert raises IntegrityError (mentors/models.py:63) |
| Mentorship.MayCreateNeverCollides | mentors/models.py:63 | under the corrected guard the insert succeeds and keeps one request per pair |
| Mentorship.AppendKeepsRequestsValid | mentors/models.py:63 | a request with a fresh id for a pair the guard admits keeps one request per pair and distinct ids |
| Mentorship.MayCreateRefinesAsWritten | mentors/views.py:82-84 | the corrected guard is stricter than the written one only where a rejected or cancelled request exists |
| Mentorship.Submit | mentors/views.py:81-116 | the corrected submission: a new pair's row is appended; otherwise the pair's closed row is replaced in place, keeping its id; other pairs' rows are unchanged, the pair has the submitted row, and keys stay unique |
| Mentorship.SubmitKeepsRequestsValid | mentors/models.py:63 | a corrected submission of a row with a fresh id keeps one request per pair and distinct ids |
| Mentorship.SubmitExtendsInsert | mentors/views.py:110-116 | for a pair the INSERT admits, the corrected submission is that INSERT |
| Mentorship.ClosedPairMayAskAgain | mentors/views.py:81-84 | (example) the rejected pair of AsWrittenGuardAdmitsDuplicate gets its request reopened as pending |
| Mentorship.RespondToRequest | mentors/views.py:161-174 | accept and reject set the status and `responded_at`; any other action leaves the request; nothing else changes |
| Mentorship.RespondAsMentor | mentors/views.py:165 | only accept adds one mentee, whatever the request's status; nothing else of the mentor changes |
| Mentorship.Accepts | mentors/views.py:161 | the accept count never exceeds the number of actions |
| Mentorship.RespondAllCountsAccepts | mentors/views.py:161-174 | after any run of actions `total_mentees` has grown by exactly the number of accepts |
| Mentorship.ReacceptCountsTwice | mentors/views.py:161-166 | accepting the same request twice counts its mentee twice, and it stays accepted |
| Mentorship.TextField | mentors/views.py:290-297 | a POSTed text field is stripped |
| Mentorship.IntField | mentors/views.py:306 | a missing or empty number gives the default; otherwise `int()` or ValueError |
| Mentorship.RateField | mentors/views.py:299-313 | a missing or empty rate gives 0.00; otherwise `float()` accepts iff the text is Python float syntax (kept stripped), or ValueError |
| Mentorship.NonNumericRateRefused | mentors/views.py:313 | (example) an hourly rate "abc" makes the registration fail with ValueError |
| Mentorship.MentorFromForm | mentors/views.py:290-315 | refused for missing fields iff bio or expertise is blank; otherwise refused with ValueError iff a number or the rate does not parse; the new mentor is pending, unverified, with no sessions or mentees, and every field is its stripped POST value, its parsed number or its default |
| Mentorship.MinimalFormGetsDefaults | mentors/views.py:306-314 | a form with only bio and expertise gets 0 years of experience, 10 max mentees, 'English' and rate 0.00 |
| Mentorship.NumericFieldsRoundTrip | mentors/views.py:306 | a number sent as `str(n)` is stored as `n` |
| Mentorship.MentorshipDesk.constructor | mentors/models.py:63 | the empty tables satisfy the pair constraint |
| Mentorship.MentorshipDesk.RequestMentorship | mentors/views.py:73-130 | as written: refused iff the pair has a pending or accepted request; otherwise blank message or goals are refused; a pair with only a closed request fails with IntegrityError; a request is added iff the pair has no request at all, and it scores 0; every other path changes nothing |
| Mentorship.MentorshipDesk.Create | mentors/views.py:110-116 | the new request takes the next id and is appended as NewRequest builds it; the tables stay valid and nothing else changes |
| Mentorship.MentorshipDesk.RequestMentorshipCorrected | mentors/views.py:73-130 | with the corrections: the same guard and form checks, the score read through `job_seeker_profile`, never IntegrityError; a request is stored iff the view's guard admits it and the form is complete, as Submit stores it |
| Mentorship.MentorshipDesk.Reopen | mentors/views.py:110-116 | stores the row as Submit does: a new pair takes the next id, a closed request keeps its own; the tables stay valid |
| Mentorship.MentorshipDesk.Respond | mentors/views.py:134-189 | the mentor's own request is answered as RespondToRequest/RespondAsMentor say; every other path changes nothing |
| Mentorship.MentorshipDesk.Answer | mentors/views.py:161-174 | exactly the answered request and its mentor are replaced by their answered forms; the tables stay valid |
| Mentorship.MentorshipDesk.RegisterMentor | mentors/views.py:278-321 | an employer or institution without a profile gets the mentor MentorFromForm builds; every other path changes nothing |
| AccountModels.ParseRole | accounts/models.py:10-17 | only the four roles parse, each back to its stored value |
| AccountModels.ParseRoleValue | accounts/models.py:10-15 | every role's stored value parses back to it |
| AccountModels.RelatedProfile | accounts/models.py:67 | a user reaches a job-seeker profile only through `job_seeker_profile`, and only when it has one |
| AccountModels.GenerateCode | accounts/models.py:49-52 | the code is six decimal digits, one per draw |
| AccountModels.EveryCodeCanBeGenerated | accounts/models.py:49-52 | every six-digit code is some result of the draws |
| AccountModels.ExpiryIsPermanent | accounts/models.py:54-56 | expiry is strict (not expired at `expires_at`) and once expired stays expired |
| AccountModels.Verify | accounts/models.py:58-62 | the record becomes verified at `now`; code and times stay |
| AccountStore.RowsWithEmail | accounts/management/commands/create_admin.py:33 | exactly the rows with that e-mail, in table order |
| AccountStore.Usernames | accounts/management/commands/create_admin.py:52 | exactly the usernames in the table |
| AccountStore.Accounts.constructor | accounts/models.py:8 | the empty store is valid: unique ids and usernames |
| AccountStore.UpdateKeepsUsersValid | accounts/models.py:8 | updating a row without touching id and username keeps ids and usernames unique |
| EmailVerificationFlow.Issue | accounts/utils.py:14-29 | the issued record holds the new code, expires 24 hours after `now`, is unverified; an existing one keeps its `created_at` |
| EmailVerificationFlow.CheckCode | accounts/utils.py:64-85 | Invalid iff no unverified record with that code; Expired iff it matches but `now` is past expiry; Verified otherwise |
| EmailVerificationFlow.SingleUse | accounts/utils.py:69-76 | after a code verified, the same code is invalid at any later time |
| EmailVerificationFlow.IssuedCodeVerifiesUntilExpiry | accounts/utils.py:19-26 | a freshly issued code verifies iff checked within 24 hours, and is expired after |
| EmailVerificationFlow.ResendRetiresOldCode | accounts/utils.py:23-29 | re-sending makes the old code invalid and clears `is_verified` |
| EmailVerificationFlow.SendVerificationEmail | accounts/utils.py:8-59 | the pair's record is the issued one whether sending succeeds or not; the record is returned, or None when sending failed; users unchanged |
| EmailVerificationFlow.VerifyEmailCode | accounts/utils.py:62-85 | on Verified the record and the user become verified; Expired and Invalid change nothing; the message matches the outcome |
| AdminBootstrap.Candidate | accounts/management/commands/create_admin.py:50-54 | every try starts with the base name |
| AdminBootstrap.CandidateInjective | accounts/management/commands/create_admin.py:52-54 | different tries are different names |
| AdminBootstrap.BaseUsername | accounts/management/commands/create_admin.py:47 | the base name is `split('@')[0]`: a prefix of the e-mail without '@' |
| AdminBootstrap.CandidateIsNew | accounts/management/commands/create_admin.py:52-54 | the k-th try is none of the earlier ones (so the loop ends) |
| AdminBootstrap.FreshUsername | accounts/management/commands/create_admin.py:47-54 | the name is not taken, and is the base with the least suffix whose earlier tries are all taken; the base itself when free |
| AdminBootstrap.Promote | accounts/management/commands/create_admin.py:35-41 | the user becomes staff, superuser, active, verified, admin, with the new password; id, username and e-mail stay |
| AdminBootstrap.PickedNameEmpty | accounts/management/commands/create_admin.py:47-54 | the name the loop picks is empty iff the e-mail's local part is empty and no user is named "" |
| AdminBootstrap.NormalizeEmail | accounts/management/commands/create_admin.py:56-65 | `create_user` stores Django's `normalize_email` of the address: an address without '@' once stripped is kept; otherwise the stripped address keeps its part before the last '@' and has its domain lower-cased |
| AdminBootstrap.NormalizedShape | accounts/management/commands/create_admin.py:56-65 | a normalised address is clean, as long as the stripped one, with its last '@' where it was |
| AdminBootstrap.NormalizeEmailIdempotent | accounts/management/commands/create_admin.py:56-65 | normalising twice is normalising once |
| AdminBootstrap.NormalizeEmailFixedPoints | accounts/management/commands/create_admin.py:56-65 | normalising keeps an address iff it has no '@' once stripped, or it is clean with no capital after its last '@' |
| AdminBootstrap.RerunMissesNormalisedAdmin | accounts/management/commands/create_admin.py:33 | the exact `get(email=...)` of a re-run misses the admin stored for a clean ADMIN_EMAIL with a capital in its domain, so a second admin is created |
| AdminBootstrap.AppendFreshUser | accounts/management/commands/create_admin.py:56-65 | a row with a fresh id and an untaken username keeps ids and usernames unique |
| AdminBootstrap.CreateAdmin | accounts/management/commands/create_admin.py:47-65 | ValueError, with nothing stored, iff the name picked is empty; otherwise one row is appended: staff, superuser, active, verified, admin, under a fresh non-empty name, with the normalised e-mail; the table stays valid |
| AdminBootstrap.CreateAdminCommand | accounts/management/commands/create_admin.py:15-68 | nothing happens without both settings; the user with exactly that e-mail is promoted; otherwise ValueError for an empty name, or a new admin is created |
| AdminBootstrap.CreateAdminOnMigrate | accounts/apps.py:14-53 | as the command, except that a user already staff and superuser is left as it was, password included |
| SignupValidation.Strength | staticfiles/js/signup.js:125-132 | the score lies in 0..6 |
| SignupValidation.LevelOf | staticfiles/js/signup.js:134-140 | weak iff score is at most 2, medium iff 3-4, strong iff at least 5 |
| SignupValidation.CalculatePasswordStrength | staticfiles/js/signup.js:124-141 | the step-by-step increments of the counter yield the level of the score |
| SignupValidation.ShortPasswordNeverStrong | staticfiles/js/signup.js:127-139 | fewer than 8 units scores at most 4 and is never strong |
| SignupValidation.FoundInLonger | staticfiles/js/signup.js:129-132 | each character-class test that holds on `p` holds on `p + q` |
| SignupValidation.StrengthMonotone | staticfiles/js/signup.js:127-132 | typing more never lowers the score |
| SignupValidation.LevelMonotone | staticfiles/js/signup.js:134-140 | typing more never lowers the level shown |
| SignupValidation.IsValidEmailMatchesRegex | staticfiles/js/signup.js:252-255 | the computed test accepts exactly the strings the e-mail regular expression matches |
| SignupValidation.DigitsOf | staticfiles/js/signup.js:259 | the kept characters are digits, no more than the input |
| SignupValidation.DigitsOfAppend | staticfiles/js/signup.js:259 | removing non-digits distributes over concatenation |
| SignupValidation.DigitsOfAllDigits | staticfiles/js/signup.js:259 | a string of digits keeps all of them |
| SignupValidation.TenDigitsArePhone | staticfiles/js/signup.js:257-260 | ten or more bare digits are a valid phone; a valid phone has at least ten characters |
| SignupValidation.PhoneSeparatorIrrelevant | staticfiles/js/signup.js:257-260 | inserting or removing one space, '-', '+', '(' or ')' never changes validity |
| SignupValidation.AllSpaceHasNoDigits | staticfiles/js/signup.js:215-222 | whitespace holds no digits |
| SignupValidation.ValidIsNotBlank | staticfiles/js/signup.js:185-222 | a valid phone or e-mail is never blank, so the "required" branch never hides the pattern test |
| SignupValidation.FieldChecksPass | staticfiles/js/signup.js:185-222 | the e-mail, phone and password checks pass exactly on a valid value |
| SignupValidation.NoErrorsIffAccepted | staticfiles/js/signup.js:163-242 | no message is shown iff all seven acceptance conditions hold |
| SignupValidation.ValidateForm | staticfiles/js/signup.js:163-242 | the messages shown are the report, in field order; the form passes iff there is none, iff it is accepted |
| LoginValidation.ValidateForm | static/js/login.js:77-106 | passes iff the username is not blank and the password has at least 6 units; a blank username is reported first |
| LoginValidation.ValidateField | static/js/login.js:133-154 | false iff a required field is blank once trimmed, or a password's trimmed length is 1 to 5 |
| LoginValidation.FieldAgreesWithFormOnCleanPassword | static/js/login.js:96-103 | on a password without edge whitespace, the focus check and the submit check agree |
| LoginValidation.PaddedPasswordDisagrees | static/js/login.js:96-154 | (example) " abcde" passes on submit yet is refused when the field loses focus |
| FormErrors.Tagged | staticfiles/js/signup.js:163-242 | a field contributes a message iff its check found one |
| FormErrors.ShowError | staticfiles/js/signup.js:163-242 | the message joins the report and the form is invalid from then on |
| ThemeSwitcher.FirstMatchFrom | static/js/theme-switcher.js:46-51 | the index of the first entry at or after a position naming `name` once trimmed, None iff no such entry exists |
| ThemeSwitcher.FirstMatch | static/js/theme-switcher.js:46-51 | the index of the first entry naming `name` once trimmed, None iff no entry does |
| ThemeSwitcher.CookieLookup | static/js/theme-switcher.js:42-55 | None for an empty cookie or when no entry names `name`; otherwise the decoded rest of the first entry that does |
| ThemeSwitcher.FirstMatchAt | static/js/theme-switcher.js:46-51 | the first entry naming `name` is the one every earlier entry fails to name |
| ThemeSwitcher.GetCookie | static/js/theme-switcher.js:42-55 | the `for` loop with its early exit returns the lookup |
| ThemeSwitcher.LongerNameDoesNotMatch | static/js/theme-switcher.js:48 | an entry whose name only starts with `name` does not match: '=' is part of the test |
| ThemeSwitcher.SecondEntryFound | static/js/theme-switcher.js:45-51 | a first entry that does not match is passed over for a second that does |
| ThemeSwitcher.PaddedEntryNames | static/js/theme-switcher.js:47-49 | an entry with a leading space before `name=value` names `name` once trimmed, and the text after the `=` is the value |
| ThemeSwitcher.CsrfLongerEntry | static/js/theme-switcher.js:48 | (example) `csrftokenX=abc` does not name `csrftoken` |
| ThemeSwitcher.CsrfPaddedEntry | static/js/theme-switcher.js:47-49 | (example) ` csrftoken=xyz` names `csrftoken` once trimmed, with `xyz` after the `=` |
| ThemeSwitcher.CsrfTokenExample | static/js/theme-switcher.js:29 | (example) `csrftokenX=abc; csrftoken=xyz` yields `xyz` |
| ThemeSwitcher.StoredTheme | static/js/theme-switcher.js:5 | an absent or empty stored theme counts as light |
| ThemeSwitcher.Toggled | static/js/theme-switcher.js:7-24 | light goes to dark; anything else to light |
| ThemeSwitcher.ToggleTwice | static/js/theme-switcher.js:7-26 | from light or dark, toggling twice comes back |
| ThemeSwitcher.ToggleSettles | static/js/theme-switcher.js:7-26 | after the first toggle, the theme alternates between light and dark |
| ThemeSwitcher.Theme.constructor | static/js/theme-switcher.js:5 | the page starts from the stored item, nothing posted |
| ThemeSwitcher.Theme.Apply | static/js/theme-switcher.js:58-76 | the dark classes and the sun icon iff the theme is 'dark'; the theme is stored verbatim |
| ThemeSwitcher.Theme.Toggle | static/js/theme-switcher.js:2-40 | the stored theme switches as Toggled says and is shown; it is posted iff a non-empty CSRF cookie exists |
| ThemeSwitcher.Theme.Initialize | static/js/theme-switcher.js:107-116 | the server's preference wins and is stored; otherwise the stored theme or light; the page shows it |
| AccountFilters.StripEach | accounts/templatetags/account_filters.py:10 | one stripped item per piece |
| AccountFilters.SplitFilter | accounts/templatetags/account_filters.py:6-11 | a falsy value gives []; an empty delimiter raises; otherwise the stripped pieces of `str(value)` |
| AccountFilters.SplitFilterCount | accounts/templatetags/account_filters.py:10 | one item more than delimiter occurrences |
| AccountFilters.SplitFilterItemsStripped | accounts/templatetags/account_filters.py:10 | no item has leading or trailing whitespace |
| AccountFilters.SplitFilterJoin | accounts/templatetags/account_filters.py:10 | when no piece has edge whitespace, joining the items gives back `str(value)` |
| AccountFilters.Trim | accounts/templatetags/account_filters.py:14-19 | a falsy value comes back unchanged; otherwise the stripped text |
| AccountFilters.TrimKeepsCleanText | accounts/templatetags/account_filters.py:17-18 | clean text comes back as the same string |
| AccountFilters.TrimIdempotent | accounts/templatetags/account_filters.py:14-19 | trimming twice is trimming once |
| JobModels.ParseJobStatus | jobs/models.py:38-44 | only the five job statuses parse |
| JobModels.DeadlinePassed | jobs/models.py:117-122 | expired iff there is a deadline and `now` is strictly after it |
| JobModels.DeadlineStaysPassed | jobs/models.py:117-122 | once past, a deadline stays past |
| JobModels.GroupThousands | jobs/models.py:130 | the `,` format of a whole amount is non-empty |
| JobModels.GroupThousandsPieces | jobs/models.py:130 | cut at the commas, the `,` format of any whole amount is a first group of 1-3 digits, with no leading zero unless it is one digit, then groups of exactly 3 digits |
| JobModels.UngroupThousands | jobs/models.py:130 | taking the separators out of a grouped amount gives `str(n)` |
| JobModels.NatToStringLowGroup | jobs/models.py:130 | a four-or-more-digit number ends in its low group of three |
| JobModels.SalaryDisplayText | jobs/models.py:124-131 | the posting's own text; else the range when both ends are non-zero; else the competitive phrase |
| JobModels.ZeroMinimumIsCompetitive | jobs/models.py:129-131 | a zero minimum counts as missing |
| JobModels.SalaryRangeReadsBack | jobs/models.py:129-130 | without separators the range text is the currency and both amounts as `str` writes them |
| JobModels.AssignedJobId | jobs/models.py:108-115 | an existing id stays; an empty one becomes the slug's first 30 characters, '-', the uuid's first 8 |
| JobModels.GeneratedJobIdShape | jobs/models.py:113-114 | a new id is 9 to 39 characters: up to 30 of slug, '-', 8 lower-case hexadecimal digits |
| JobModels.JobIdAssignedOnce | jobs/models.py:109 | saving again never changes the id |
| JobModels.Job.constructor | jobs/models.py:82 | a new posting is pending |
| JobModels.Job.Save | jobs/models.py:108-115 | `job_id` becomes AssignedJobId of the old values; the other fields stay |
| JobModels.ParseApplicationStatus | jobs/models.py:137-145 | only the seven application statuses parse |
| JobModels.Apply | jobs/models.py:172 | refused with IntegrityError iff the applicant already applied to the job; otherwise appended, keeping the pair unique |
| JobModels.ApplyTwiceRefused | jobs/models.py:172 | a second application to the same job is refused, whatever it says |
| JobModels.SaveJob | jobs/models.py:190 | refused iff the bookmark exists; otherwise appended, keeping the pair unique |
| EducationModels.ParseCourseStatus | education/models.py:12-18 | only the five course statuses parse |
| EducationModels.Course.constructor | education/models.py:46 | a new course is pending, without approver or approval time |
| EducationModels.UrlOrFile | education/models.py:266 | the URL when non-empty, else the file's URL, else '' |
| EducationModels.DisplayUrl | education/models.py:263-271 | video and document choose URL or file, link its address, every other type '' |
| EducationModels.DisplayUrlIsOwn | education/models.py:263-271 | the URL shown is empty or one the item holds for its own type |
| EducationModels.DisplayUrlIgnoresOtherTypes | education/models.py:263-271 | the video fields never affect a non-video item's URL |
| EducationModels.AssignedTransactionId | education/models.py:152-156 | an existing id stays; an empty one becomes 'TXN-' and the upper-cased first 12 uuid characters |
| EducationModels.TransactionIdShape | education/models.py:155 | a new id is 16 characters: 'TXN-', 8 upper hex, '-', 3 upper hex |
| EducationModels.TransactionIdAssignedOnce | education/models.py:153 | saving again never changes the id |
| EducationModels.Payment.Save | education/models.py:152-156 | `transaction_id` becomes AssignedTransactionId of the old one; the other fields stay |
| EducationModels.AssignedCertificateNumber | education/models.py:177-181 | an existing number stays; an empty one becomes 'CERT-' and the upper-cased first 8 uuid characters |
| EducationModels.CertificateNumberShape | education/models.py:180 | a new number is 'CERT-' and 8 upper-case hexadecimal digits |
| EducationModels.CertificateNumberAssignedOnce | education/models.py:178 | saving again never changes the number |
| EducationModels.Certificate.Save | education/models.py:177-181 | `certificate_number` becomes AssignedCertificateNumber of the old one; the other fields stay |
| EducationModels.Enroll | education/models.py:98 | refused iff the enrolment exists; otherwise appended, keeping (user, course) unique |
| EducationModels.SaveCourse | education/models.py:192 | refused iff the bookmark exists; otherwise appended, keeping (user, course) unique |
| EducationModels.EnrollTwiceRefused | education/models.py:98 | enrolling twice in one course is refused |
| CourseAdmin.AutoApproval | education/admin.py:57-60 | only a new course without approver saved by staff changes: it becomes active, approved by that user |
| CourseAdmin.ApprovalSettles | education/admin.py:57 | once a course has an approver, no later save changes status or approver |
| CourseAdmin.ApproverIsCreatingStaff | education/admin.py:57-60 | an approver this hook sets is the staff user creating the course |
| CourseAdmin.SaveModel | education/admin.py:55-61 | status and approver become AutoApproval's; `approved_at` and the title are never touched |
| Tables.FindBy | mentors/views.py:79 | a row with the wanted key, or None exactly when no row has it; used for users by id, mentors by id and mentors by user |
| Tables.Insert | mentors/models.py:63 | an insert succeeds iff no row has the key, appends the row, keeps keys unique; else IntegrityError |
| Tables.ReplaceKeepsUnique | mentors/models.py:63 | replacing a row by one with the same key keeps keys unique |
| Tables.SecondInsertRefused | mentors/models.py:63 | a second row with a taken key is refused |
| Text.Strip | accounts/templatetags/account_filters.py:10 | the result has no edge whitespace, is empty iff the text is all whitespace, and is the text between the edges |
| Text.StripNoEdgeSpace | accounts/templatetags/account_filters.py:18 | clean text strips to itself |
| Text.StripIdempotent | accounts/templatetags/account_filters.py:18 | stripping twice is stripping once |
| Text.StripLeadingSpace | static/js/theme-switcher.js:47 | one leading space before clean text is trimmed away |
| Text.Lower | mentors/views.py:45-46 | `lower()` maps each character, length kept |
| Text.Upper | education/models.py:155 | `upper()` maps each character, length kept |
| Text.LowerKeepsSpaces | mentors/views.py:45-46 | lower-casing keeps whitespace where it was |
| Text.ContainsSelf | mentors/views.py:50 | (helper of SelfMatchCount) every string contains itself |
| Text.Split | accounts/templatetags/account_filters.py:10 | `str.split` yields at least one piece |
| Text.SplitWithoutSeparator | static/js/theme-switcher.js:45 | text without the separator is one piece |
| Text.SplitAtFirst | static/js/theme-switcher.js:45 | the first separator cuts off the first piece |
| Text.JoinSplit | accounts/templatetags/account_filters.py:10 | joining the pieces with the separator gives back the text |
| Text.SplitCount | accounts/templatetags/account_filters.py:10 | one piece more than separator occurrences |
| Text.SplitPartsAvoidSeparator | accounts/templatetags/account_filters.py:10 | no piece contains the separator |
| Text.PrefixOfFirstPart | accounts/management/commands/create_admin.py:47 | the first piece is a prefix of the text |
| Text.Before | accounts/management/commands/create_admin.py:47 | the text before the first occurrence is a prefix without it, followed by it when shorter |
| Text.FirstPieceIsBefore | accounts/management/commands/create_admin.py:47 | `split(c)[0]` is the text before the first `c` |
| Text.NatToString | accounts/management/commands/create_admin.py:53 | `str(n)` is non-empty digits without a leading zero |
| Text.NatToStringRoundTrip | accounts/management/commands/create_admin.py:53 | the digits read back to the number |
| Text.NatToStringInjective | accounts/management/commands/create_admin.py:53 | distinct numbers render differently |
| Text.IntToString | mentors/views.py:306 | `str(i)` is `str` of the magnitude, after '-' when negative |
| Text.ParseInt | mentors/views.py:306 | `int()` accepts exactly optional whitespace, an optional sign and digits |
| Text.ParseIntRoundTrip | mentors/views.py:306 | `int(str(i)) == i` |
| Text.LowerIdempotent | accounts/management/commands/create_admin.py:56-65 | lower-casing twice is lower-casing once |
| Text.LowerFixesNonCapitals | accounts/management/commands/create_admin.py:56-65 | lower-casing keeps a text iff it has no ASCII capital |
| Text.LastIndexOf | accounts/management/commands/create_admin.py:56-65 | the last index holding the character, None iff there is none |
| Text.LastIndexOfAt | accounts/management/commands/create_admin.py:56-65 | an index holding the character with none after it is LastIndexOf |
| Text.FirstOf | mentors/views.py:313 | the index of the first character from a set, or the length when there is none |
| Text.FirstOfAt | mentors/views.py:313 | an index before which no character is from the set, and at which one is, is FirstOf |
| Text.DigitsAreUnsignedFloat | mentors/views.py:313 | `float()` accepts a run of digits |
| Text.IntTextIsFloatText | mentors/views.py:313 | `float()` accepts every `str(i)` of an integer |
| Text.PointedMantissa | mentors/views.py:313 | digits, '.', digits form a decimal mantissa made only of digits and one point |
| Text.DecimalTextIsFloatText | mentors/views.py:313 | `float()` accepts `whole.fraction` for non-empty digit runs |
| Text.MantissaAlphabet | mentors/views.py:313 | a decimal mantissa holds only digits and '.' |
| Text.ExponentAlphabet | mentors/views.py:313 | an exponent holds only 'e'/'E', a sign and digits |
| Text.UnsignedFloatAlphabet | mentors/views.py:313 | an unsigned float is inf, infinity or nan, or made only of digits, '.', 'e', 'E' and signs |
| Text.FloatTextAlphabet | mentors/views.py:313 | text `float()` accepts is, stripped and unsigned, inf, infinity or nan, or made only of digits, '.', 'e', 'E' and signs |
| Text.WordIsNotFloatText | mentors/views.py:313 | `float()` refuses clean text that starts with a lower-case letter other than e, i and n |
| Text.Utf16Length | static/js/login.js:98 | `.length` lies between the character count and twice it |
| Text.Utf16LengthAppend | staticfiles/js/signup.js:127-128 | `.length` adds up over concatenation |
| Identifiers.Take | jobs/models.py:113 | `s[:n]` is the prefix of length min(n, len(s)) |
| Identifiers.UpperHex | education/models.py:155 | upper-casing lower hexadecimal digits gives upper ones |
| Wrappers.Option.GetOr | mentors/views.py:106 | the value, or the default when absent |

## Left out

- **ORM and database.** Querysets, `get_or_create`, `save()` and the `create_user` internals other than its empty-username ValueError and `normalize_email`, and database ordering are left out. The users and the tables unique per pair are sequences of rows. The e-mail verification records are a map from (user, e-mail) to one record. Every query is a function over them. Password hashing is left out: a row holds the password last set.
- **Rendering and responses.** `render`, `redirect`, `messages` and the HTTP request objects are left out. The POSTed fields and the method are parameters. Each view's result is an outcome datatype.
- **Mail, clocks and randomness.** `send_mail` becomes a boolean that says whether it succeeded, and its printed error is not modelled. `timezone.now()` becomes one parameter `now` per call, where the code calls it twice. `random.choices`, `uuid.uuid4()` and `slugify` become parameters.
- **Floating point.** Not modelled:
  - the score's `round(…, 1)`;
  - `float(hourly_rate)`'s value: the rate is kept as the stripped text `float()` accepts. The conversion to a two-place Decimal, the `max_digits=10` bound, and the refusal of inf and nan on save are not modelled;
  - Decimal salaries with `,.0f` rounding: salary amounts are whole numbers;
  - `progress_percentage`.
- MentorMatching.SortByScore: sorts on the exact ratio. Sorting on `round(score, 1)` gives the same order for up to 1000 skill tokens, but it ties closer scores beyond that.
- MentorMatching.MentorshipList: the `search` and `expertise` `icontains` filters are not modelled, because they are case-insensitive database lookups. The list covers every active, verified mentor.
- **Sessions and other views.** The mentorship session views and their date parsing are left out. So are the count-only dashboards and every `urls.py`/admin configuration except `CourseAdmin.save_model`.
- **Character semantics.** Python `lower()`/`upper()` are modelled on ASCII letters only. `int()` and `float()` do not accept underscores or non-ASCII digits. `create_user`'s NFKC `normalize_username` is not modelled. E-mail lookups compare exactly, as a case-sensitive database collation does.
- ThemeSwitcher.CookieLookup: `decodeURIComponent` is an abstract function, and its URIError on malformed escapes is not modelled.
- **Browser side effects.** Left out:
  - the DOM beyond the body's theme classes and the icon class;
  - animations, `MutationObserver` and navigation listeners;
  - `fetch`, which is only recorded as the list of themes posted;
  - the early page-load initialiser, which repeats `Initialize`'s rule;
  - the whole of the landing and dashboard scripts.
- **Sign-up field checks.** Sign-up's `validateField` on blur and the live strength display are not modelled. Only login's `validateField` is.
- **Model validators.** Django runs `Application.match_score`'s validators only on form validation, not on save. `MatchScoreValid` states the range, but `Apply` does not enforce it.
- **Other model fields.** Fields the modelled rules never read are left out. Examples: the rest of `Enrollment`, `Payment` amounts, and profile pictures.
- EmailVerificationFlow.SendVerificationEmail: only the record store is modelled. The message text is not.
- EmailVerificationFlow: the map keeps at most one record per (user, e-mail). This assumes that the `get_or_create` of `send_verification_email` (accounts/utils.py:14) is the only writer. The table has no unique constraint, and the admin registration (accounts/admin.py:18) can add a second record for a pair. Such a record, and the MultipleObjectsReturned that `get_or_create` and `objects.get` (accounts/utils.py:14, 65) then raise, are not modelled.

## Findings

| source | as written | input that shows it | evidently intended | confidence | as-written member | corrected member |
|---|---|---|---|---|---|---|
| mentors/views.py:39-40 and 93-94 | the mentee's skills are read through `request.user.youth_profile`, which does not exist. `JobSeekerProfile.user` has `related_name='job_seeker_profile'` (accounts/models.py:67), so `hasattr` is false | any job seeker with skills "python, sql", and a mentor with expertise "Python" | read the skills through `job_seeker_profile`, so that this mentor scores 50 | high: not executed | MentorMatching.AsWrittenMenteeHasNoSkills | MentorMatching.MenteeTokensFromProfile |
| mentors/views.py:82-84, with mentors/models.py:63 | the request guard looks only for pending or accepted requests, but the table allows one row per (mentee, mentor) of any status | a mentee whose request to a mentor was rejected submits a new one: the guard passes, and `create` raises IntegrityError | a pair whose request was closed may ask again, as the view's comment "active request" says (views.py:81): the closed request is reopened as a new pending one | high: not executed | Mentorship.AsWrittenGuardAdmitsDuplicate | Mentorship.Submit |
