# Kirra property management — a Dafny model of the front end's rules

Kirra is a property-management front end over a hosted Postgres database.
Most of its components fetch rows and render them. Inside that plumbing
sit deterministic rules, and this project states those rules in Dafny and
proves properties of them:

- access control: the `useRBAC` hook, with its three-attempt retry loop that
  fails closed, and its `can`, `isAdmin` and `isOwner` checks
  (`Rbac`);
- how those checks gate the application shell's routes (`App`), the
  sidebar menu (`Sidebar`), the header and its role selector (`Header`,
  `RoleSelector`);
- the client helpers: the configuration check, the error-code table and
  the retry helper with exponential back-off (`Supabase`), and the generic
  read hook (`SupabaseQuery`);
- money and occupancy: the fixed exchange rates and currency display
  (`Constants`, `Money`), month windows and buckets (`MonthWindows`,
  `Dates`), and the reducers of the dashboard, the analytics page and the
  accounting summary (`Dashboard`, `Analytics`, `Accounting`);
- the calendars: the month grid and navigation shared by all of them
  (`MonthGrid`), the per-day lookups and the yearly activity levels
  (`Calendar`, `InlineCalendar`, `CalendarManager`, `YearlyCalendar`);
- the list pages: add, replace-by-id and delete-by-id on the lead and
  transaction lists, the conjunctive search filters and the sort orders
  (`Lists`, `Leads`, `Transactions`, `Listings`, `PropertyList`,
  `MentionList`);
- the entry forms: the amount sanitiser, the stored dollar value kept
  beside the amount and currency entered, and the guards before each
  write (`FormFields`, `AddPropertyModal`, `EditPropertyModal`,
  `AddTransactionModal`, `TransactionEditModal`);
- the chat pane of a lead: the `@` mention window, the mention splice,
  mention extraction, the optimistic send and its rollback
  (`MessageModal`);
- registration: the password rules in their fixed order and the steps of
  the submit handler (`SignUp`).

Amounts are exact `real`s. The two lira-to-dollar rates keep the values
each file uses: 35.39 in `constants.ts` and the two add modals, 30.5 in the
dashboards and the two edit modals. Dates are `(year, month, day)` values
with JavaScript's month numbering and carrying constructor, and
timestamps are milliseconds from midnight of 1 January 1970, midnight
of a day being its day number times the milliseconds in a day. Everything remote is an input: database
replies, the realtime feed, the authentication service, the clock and
`crypto.randomUUID`. A component whose fields change in place (the
lists, the calendars' shown month, the chat pane, the forms, the RBAC and
query hooks) is a `class` whose methods state their new state; the rules
they apply are functions with lemmas beside them.

## Model

| member | source | states |
|---|---|---|
| Constants.Sign | src/lib/constants.ts:22-30 | the dollar sign is shown exactly when the target currency is dollars, the lira sign otherwise |
| Constants.Convert | src/lib/constants.ts:15-20 | the same currency is unchanged; dollars to lira multiply by 35.39; lira to dollars give back the lira when multiplied by 35.39 |
| Constants.ConvertRoundTrip | src/lib/constants.ts:2-5 | the two rates are reciprocal: converting there and back returns the amount |
| Constants.RoundHalfAway | src/lib/constants.ts:23-29 | the whole number (of cents) nearest the amount, halves away from zero, with the amount's sign |
| Constants.FormatCurrency | src/lib/constants.ts:8-31 | the target currency's sign; `null` shows 0.00; otherwise the converted amount rounded to cents |
| Constants.FormatWithinHalfCent | src/lib/constants.ts:15-30 | the value shown is within half a cent of the converted amount |
| Constants.FormatWholeCents | src/lib/constants.ts:22-30 | a same-currency amount that is a whole number of cents is shown exactly |
| Supabase.IsConfigured | src/lib/supabase.ts:32-38 | configured exactly when both variables are present and non-empty |
| Supabase.CodeMessage | src/lib/supabase.ts:51-65 | every known database code has a non-empty fixed message |
| Supabase.HandleError | src/lib/supabase.ts:41-85 | falsy values and the empty string give the unknown-error text; a known code its fixed text whatever the message; another code its message or the generic text; an `Error` its message, or the network text when it mentions "Failed to fetch"; a string itself; anything else the unexpected-error text |
| Supabase.HandleErrorEmpty | src/lib/supabase.ts:41-85 | the message is empty exactly for an `Error` thrown with an empty message |
| Supabase.KnownCodeIgnoresMessage | src/lib/supabase.ts:51-65 | a known code decides the message whatever text accompanies it |
| Supabase.RetryRequest | src/lib/supabase.ts:88-107 | at most `maxRetries` calls, every call before the last failed; it succeeds exactly when the last call did, with that call's value; a failure has made all `maxRetries` calls and rethrows the last error (`undefined` when no call was made); the waits are 2^i seconds, none after the last call |
| SupabaseQuery.Settle | src/hooks/useSupabaseQuery.ts:24-33 | rows replace the data (`null` as none) and clear the error; a failure keeps the data and shows `handleSupabaseError`'s message |
| SupabaseQuery.ErrorShownOnFailure | src/hooks/useSupabaseQuery.ts:26-33 | an error is shown exactly when the query failed, and it is empty only for an `Error` with an empty message |
| SupabaseQuery.LastSuccessWins | src/hooks/useSupabaseQuery.ts:30-33 | a failure after a success keeps that success's rows; a success after a failure clears the error |
| SupabaseQuery.Query.constructor | src/hooks/useSupabaseQuery.ts:14-16 | no rows, loading, no error |
| SupabaseQuery.Query.Load | src/hooks/useSupabaseQuery.ts:19-37 | the rows and error become those `Settle` gives for the reply, and loading ends |
| Rbac.Classify | src/hooks/useRBAC.ts:34-60 | a profile read with neither row nor error makes no progress; a failed profile read, or a failed permissions read, is a failure; otherwise the attempt loads that profile and the permissions of its stored role (`null` as none) |
| Rbac.FirstLoaded | src/hooks/useRBAC.ts:28-60 | the attempt found is below the limit, loads, and every earlier attempt from `k` does not; `None` means no attempt below the limit loads |
| Rbac.Waits | src/hooks/useRBAC.ts:70-73 | one wait per failure, the `i`-th being 2^(i+1) seconds |
| Rbac.WaitsSnoc | src/hooks/useRBAC.ts:70-73 | each further failure appends the next doubled wait |
| Rbac.WaitsValues | src/hooks/useRBAC.ts:72 | the two waits taken before giving up are 2 and 4 seconds |
| Rbac.AnyGrant | src/hooks/useRBAC.ts:85-87 | true exactly when some permission has the resource and action asked for |
| Rbac.Can | src/hooks/useRBAC.ts:83-88 | granted exactly when signed in, not loading, no error, and some permission matches |
| Rbac.IsAdmin | src/hooks/useRBAC.ts:90-93 | an admin answer implies the approval flag |
| Rbac.IsOwner | src/hooks/useRBAC.ts:95-98 | an owner answer implies the owner role |
| Rbac.DenialIsTotal | src/hooks/useRBAC.ts:83-98 | signed out, loading or after an error every check answers no |
| Rbac.AdminOwnerExclusive | src/hooks/useRBAC.ts:90-98 | no state is both admin and owner |
| Rbac.RbacHook.constructor | src/hooks/useRBAC.ts:12-16 | loading, nothing granted, no role, no error |
| Rbac.RbacHook.Attempt | src/hooks/useRBAC.ts:31-60 | the error is cleared; the attempt fails or loads as `StepAt` says; a load sets the role (an approved admin acts as admin), the approval and the stored role's permissions |
| Rbac.RbacHook.Backoff | src/hooks/useRBAC.ts:61-74 | one retry fewer; the last clears every grant and shows the failure, the others take the next doubled wait |
| Rbac.RbacHook.LoadPermissions | src/hooks/useRBAC.ts:19-78 | without a user nothing is granted; otherwise the first attempt of three that loads decides role, approval and permissions after one wait per earlier failure, and when none loads every grant is cleared and the failure message shown; loading ends either way |
| Rbac.LoadedFlags | src/hooks/useRBAC.ts:45-46 | after a load `isAdmin()` is the profile's `is_admin` and `isOwner()` is "stored role owner and not admin" |
| Rbac.PermissionsFollowStoredRole | src/hooks/useRBAC.ts:49-52 | permissions are read for the stored role: an approved admin stored as owner gets the owner's permissions |
| App.Shell.constructor | src/App.tsx:24 | the flag starts unknown, with no listener and no sign-out |
| App.Shell.Mount | src/App.tsx:27-61 | without configuration the flag becomes false and no listener is set up; otherwise the listener is subscribed |
| App.Shell.CheckSession | src/App.tsx:34-50 | the flag becomes whether a session was returned; a session error signs out once and counts as signed out, and so does a thrown check |
| App.Shell.OnAuthStateChange | src/App.tsx:54-56 | the flag follows the session the listener reports |
| App.Screen | src/App.tsx:63-250 | what the shell renders for a path; stated by App.LoadingFirst, App.PublicRedirectsSignedIn, App.ProtectedNeedsSession and the page lemmas below |
| App.RouteTable | src/App.tsx:84-250 | the routes `<Routes>` registers: the sign-in pages, `/`, the owner pages for an owner or an admin, the admin pages for an admin, then the common pages; stated by App.TablePages and the page lemmas |
| App.TablePages | src/App.tsx:104-187 | an administration page is registered only for an admin, properties and listings only for an owner or an admin |
| App.TrimSlashes | src/App.tsx:84-250 | drops exactly the slashes at the end of the path |
| App.RoutePath | src/App.tsx:84-250 | the path React Router v6 compares with a route's, which sets no `caseSensitive`: never upper-case, never ending in a slash except the root |
| App.RoutePathOfRoute | src/App.tsx:86-243 | every registered path, lower-case and without a trailing slash, is its own route path |
| App.RoutePathIgnoresCaseAndSlash | src/App.tsx:84-250 | changing letter case or adding a trailing slash leaves the route path as it is |
| App.FindPath | src/App.tsx:84-250 | a route found has the key asked for; none is found only when no route has it |
| App.FindRoute | src/App.tsx:84-250 | a route found is registered and matched by the path, ignoring case and trailing slashes; none is found only when no registered route is matched |
| App.FindRouteIgnoresCaseAndSlash | src/App.tsx:84-250 | the route found is the same for the path in lower case and for the path with a slash added |
| App.LoginIgnoresCaseAndSlash | src/App.tsx:86 | a signed-out user on `/LOGIN` or `/login/` sees the login page |
| App.LoginPathVariants | src/App.tsx:86 | `/LOGIN` and `/login/` have the route path `/login` |
| App.LoginFound | src/App.tsx:86 | a signed-out user on any path whose route path is `/login` sees the login page |
| App.LoadingFirst | src/App.tsx:63-69 | while the flag is unknown or the access checks load, the loading screen is shown whatever the path |
| App.PublicRedirectsSignedIn | src/App.tsx:86-89 | a signed-in user on a sign-in page is sent to `/` |
| App.ProtectedNeedsSession | src/App.tsx:92-249 | a signed-out user sees only the four sign-in pages and is otherwise sent to `/login` |
| App.AdminPagesNeedAdmin | src/App.tsx:136-187 | the administration, leads, transactions and WhatsApp pages render only for an approved admin |
| App.OwnerPagesNeedRole | src/App.tsx:106-133 | properties and listings render only for an owner or an admin |
| App.CommonPagesAlwaysRegistered | src/App.tsx:189-249 | calendar, inline calendar, accounting, analytics and help render for a signed-in user whatever the role |
| App.FindPathAfter | src/App.tsx:84-250 | a route whose path no earlier route has is the one found, however many routes come before it |
| App.FindPathAt | src/App.tsx:84-250 | the first route with a path is the one found |
| Sidebar.Render | src/components/layout/Sidebar.tsx:22-30 | the skeleton is shown exactly while the access checks load |
| Sidebar.Links | src/components/layout/Sidebar.tsx:43-74 | whether the menu holds a link to a path; used by the sidebar lemmas below |
| Sidebar.CommonItems | src/components/layout/Sidebar.tsx:43-52 | Overview, Accounting and Analytics come first, in that order, and Help is always there |
| Sidebar.PropertiesIffOwner | src/components/layout/Sidebar.tsx:47-50 | the Properties link appears exactly for an owner |
| Sidebar.AdminSectionIffApprovedAdmin | src/components/layout/Sidebar.tsx:54-74 | the admin section appears exactly for an approved admin, as the four administration links at the end of the menu |
| Sidebar.AdminHasNoPropertiesLink | src/components/layout/Sidebar.tsx:47-50 | an admin never sees the Properties link |
| Header.HeaderState.constructor | src/components/layout/Header.tsx:7-10 | the selection starts on owner: the initialiser runs at the first render, while the header's own access checks are still loading and `isAdmin()` answers no |
| Header.HeaderState.HandleRoleChange | src/components/layout/Header.tsx:12-15 | the selection becomes the role clicked |
| Header.HeaderState.Render | src/components/layout/Header.tsx:26-33 | the selector is shown exactly to an owner or an admin, and the highlighted button is the selected role's |
| Header.AdminStartsUnselected | src/components/layout/Header.tsx:7-33 | an approved admin first sees the admin button unhighlighted, and highlighted once it is clicked |
| RoleSelector.Buttons | src/components/RoleSelector.tsx:12-41 | nothing is rendered unless the user is an owner or an admin; the owner button appears exactly for an owner and the admin button exactly for an admin; a button is highlighted exactly when its role is the selected one |
| RoleSelector.OneButton | src/components/RoleSelector.tsx:18-41 | a rendered selector has exactly one button |
| RoleSelector.ClickHighlightsButton | src/components/RoleSelector.tsx:18-41 | a button passes its own role to `onRoleChange`; with that role selected the selector shows that button alone, highlighted |
| MentionList.Rendered | src/components/MentionList.tsx:16-20 | nothing is rendered when no profile matches; otherwise the matching profiles |
| MentionList.Matching | src/components/MentionList.tsx:16-18 | the profiles whose e-mail contains the term, both lowered; stated by MentionList.MatchingExactly |
| MentionList.MatchingExactly | src/components/MentionList.tsx:16-18 | the list offered holds exactly the profiles whose e-mail contains the term ignoring case, in their original order |
| MentionList.EmptyTermOffersAll | src/components/MentionList.tsx:16-20 | an empty term offers every profile, and the list is hidden only when there are none |
| Text.LowerChar | src/components/MentionList.tsx:17 | upper-case ASCII letters become lower-case, every other character is kept |
| Text.ToLower | src/components/MentionList.tsx:17 | the same length, each character lowered |
| Text.MatchesSearch | src/components/Leads.tsx:134-136 | `field.toLowerCase().includes(term.toLowerCase())`; stated through Text.IncludesAt and the filters' exactness lemmas |
| Text.Includes | src/components/MentionList.tsx:17 | `s.includes(t)`; stated by Text.IncludesAt and Text.IncludesEmpty |
| Text.IncludesEmpty | src/components/MentionList.tsx:17 | every string includes the empty string |
| Text.IncludesAt | src/components/MentionList.tsx:17 | `includes` holds exactly when the term occurs as a block at some index |
| Text.EmptySearchMatches | src/components/Leads.tsx:134-136 | an empty search term matches every field |
| Text.LastIndexBelow | src/components/MessageModal.tsx:110 | the last index below the bound holding the character, or -1 when none does |
| Text.LastIndexOfFrom | src/components/MessageModal.tsx:110 | the last occurrence at or before the position (0 for a negative one), or -1 when there is none |
| Text.LastIndexOf | src/components/MessageModal.tsx:121 | the last occurrence anywhere, or -1 when there is none |
| Text.SliceBound | src/components/MessageModal.tsx:112 | a `slice` bound lies within the string |
| Text.Slice | src/components/MessageModal.tsx:112 | `s.slice(start, end)`; stated by Text.SliceMeaning and Text.SliceSplit |
| Text.SliceMeaning | src/components/MessageModal.tsx:112 | within the string the slice holds the characters from `start` up to `end`; a negative start counts back from the end; an end at or before the start gives the empty string |
| Text.SliceSplit | src/components/MessageModal.tsx:121-122 | for any cut `k`, `slice(0, k)` followed by `slice(k)` is the whole string |
| Text.KeepNumeric | src/components/AddPropertyModal.tsx:84 | the result holds only digits and dots and is no longer than the input |
| Text.KeepNumericFixedPoint | src/components/AddPropertyModal.tsx:84 | the sanitiser leaves a string unchanged exactly when it already holds only digits and dots |
| Text.KeepNumericIdempotent | src/components/AddTransactionModal.tsx:86 | sanitising twice is sanitising once |
| Text.IsJsSpace | src/components/MessageModal.tsx:136 | the characters `trim()` removes: tab, vertical tab, form feed, space, no-break space, the byte-order mark, the other Unicode space separators (U+1680, U+2000 to U+200A, U+202F, U+205F, U+3000) and the line terminators |
| Text.TrimWideSpaces | src/components/MessageModal.tsx:136-137 | a message of one ideographic space trims to nothing, and the em space and the Ogham space mark are trimmed from both ends |
| Text.TrimStart | src/components/MessageModal.tsx:136 | a suffix of the input that does not start with whitespace, everything dropped being whitespace |
| Text.TrimEnd | src/components/MessageModal.tsx:136 | a prefix of the input that does not end with whitespace, everything dropped being whitespace |
| Text.Trim | src/components/MessageModal.tsx:136 | `trim()`: the start, then the end; stated by Text.TrimBlank and Text.TrimKeepsBlock |
| Text.TrimBlank | src/components/MessageModal.tsx:136 | trimming leaves nothing exactly when the text is all whitespace |
| Text.TrimKeepsBlock | src/components/MessageModal.tsx:136 | what trimming keeps is a block of the text, neither starting nor ending with whitespace |
| Text.LeadingDigits | src/components/AddPropertyModal.tsx:41 | the length of the longest all-digit prefix |
| Text.ParseUnsigned | src/components/AddPropertyModal.tsx:41 | never negative; no number exactly when the text starts with neither a digit nor a dot followed by a digit; its value is stated by Text.ParseUnsignedDecimal |
| Text.ParseFloat | src/components/AddTransactionModal.tsx:102 | a negative result needs a leading minus; `NaN` exactly when the part after an optional sign has no number; its value is stated by Text.ParseFloatDigits and Text.ParseFloatDecimal |
| Text.ParseFloatDigits | src/components/AddTransactionModal.tsx:102 | any non-empty string of digits parses to its decimal value |
| Text.ParseFloatDecimal | src/components/AddPropertyModal.tsx:41 | digits, a dot and digits, with a digit on at least one side, parse to the whole part plus the digits after the dot divided by ten to the power of their count |
| Text.ParseUnsignedDecimal | src/components/AddPropertyModal.tsx:41 | leading digits followed by a dot and digits read as the whole part plus the fraction, the fraction being zero when no digit follows the dot |
| Text.WholePart | src/components/AddPropertyModal.tsx:41 | digits followed by a dot are the leading digits and give the whole part |
| Text.AllLeading | src/components/AddPropertyModal.tsx:41 | a string of digits is all leading digits, read as its decimal value |
| Text.UnsignedParse | src/components/AddPropertyModal.tsx:41 | without a sign, `parseFloat` reads the unsigned part |
| Text.Utf16Length | src/components/auth/SignUp.tsx:20 | `password.length`: between the number of characters and twice it, and equal to it exactly when no character lies above U+FFFF |
| Text.Utf16LengthAppend | src/components/auth/SignUp.tsx:20 | the length of a concatenation is the sum of the lengths |
| Text.SanitisedNeverNegative | src/components/AddTransactionModal.tsx:86-102 | an amount typed through the sanitiser never parses to a negative number |
| Text.ParseFloatExamples | src/components/AddPropertyModal.tsx:41-44 | "12.5" is 12.5, "007" is 7, and "." and "" are `NaN` |
| Text.ParseFloatFraction | src/components/AddPropertyModal.tsx:41 | "12.5" parses to 12.5 |
| Text.ParseFloatLeadingZeros | src/components/AddPropertyModal.tsx:41 | "007" parses to 7 |
| Lists.Filter | src/components/Transactions.tsx:65 | every kept element is in the input and satisfies the predicate, every satisfying element is kept, and the result is no longer |
| Lists.FilterIsSubsequence | src/components/Transactions.tsx:76 | a filtered list keeps the original order: it is a subsequence of the input |
| Lists.FilterKeepsAll | src/components/Leads.tsx:132 | when every element passes, filtering returns the list unchanged |
| Lists.ReplaceWhere | src/components/Transactions.tsx:57-61 | same length; each matching element is replaced and every other element is kept |
| Lists.FindFirst | src/components/Calendar.tsx:42 | no result exactly when no element satisfies the predicate; a result is an element that satisfies it |
| Lists.FilterAfterReplace | src/components/Transactions.tsx:57-66 | replacing records by a record that is then deleted gives the same list as deleting directly |
| Lists.ReplaceWhereIdempotent | src/components/Leads.tsx:105-109 | applying the same update twice is applying it once |
| Lists.FilterRejectedHead | src/components/Leads.tsx:101-102 | a record added at the head that the filter rejects leaves the filtered view unchanged |
| FormFields.Sanitise | src/components/AddPropertyModal.tsx:84 | only digits and dots remain, and sanitising the result changes nothing |
| FormFields.ParseInt | src/components/AddPropertyModal.tsx:55-56 | no number exactly when no digit follows the optional sign; a negative number needs a leading minus |
| FormFields.ParseIntDigits | src/components/AddPropertyModal.tsx:55-56 | for every non-empty digit string `ds` of value `v` followed by text not starting with a digit, `parseInt` gives `v`, `-v` after a minus and `v` after a plus |
| FormFields.ReadsDigits | src/components/AddPropertyModal.tsx:55-56 | whatever leading digit run `parseInt` reads, its value comes out unsigned, negated after a minus and unchanged after a plus |
| Text.DigitsThen | src/components/AddPropertyModal.tsx:55-56 | a digit string followed by the end or by a non-digit is exactly the leading digit run, and its value is the value read |
| FormFields.ParseIntExample | src/components/EditPropertyModal.tsx:49-50 | `parseInt("3")` is 3 and `parseInt("")` is no number |
| FormFields.AsFloat | src/components/EditPropertyModal.tsx:37 | a prefilled number reads back as itself; typed text is read with `parseFloat` |
| FormFields.AsInt | src/components/EditPropertyModal.tsx:49-50 | a prefilled number is cut toward zero |
| FormFields.ShownIntRoundTrip | src/components/EditPropertyModal.tsx:20-21 | a whole number put into a field is read back unchanged |
| FormFields.Prefill | src/components/EditPropertyModal.tsx:20-22 | the field is filled exactly when the stored value exists, and then reads back as that value |
| FormFields.CaughtMessage | src/components/AddPropertyModal.tsx:77 | an `Error` gives its message, anything else the fallback text |
| FormFields.NullIfEmpty | src/components/AddPropertyModal.tsx:58-61 | stored as `null` exactly when the text is empty, otherwise the text itself |
| Money.Round | src/components/Dashboard.tsx:84 | the integer within half of the input, halves going up |
| Money.RoundUnique | src/components/Analytics.tsx:148 | any integer within those bounds is the rounded value |
| Money.Growth | src/components/Analytics.tsx:111-113 | zero when the previous value is not positive |
| Money.GrowthInverse | src/components/Analytics.tsx:111-113 | applying the growth percentage to the previous value recovers the current value |
| Money.GrowthSign | src/components/Analytics.tsx:111-113 | with a positive base, growth is positive exactly when the value rose and zero exactly when it stayed |
| Money.Nights | src/components/Dashboard.tsx:79 | the count is one more than the whole days between the two instants |
| Money.NightsOfDays | src/components/Dashboard.tsx:76-81 | an event stored as whole days counts both its first and its last day |
| Money.BookedNights | src/components/Dashboard.tsx:76-81 | with every event ending on or after its start, at least one night per event |
| Money.OccupancyRate | src/components/Dashboard.tsx:83-85 | zero without possible nights; between 0 and 100 while booked nights do not exceed possible ones |
| Money.OccupancyNotClamped | src/components/Analytics.tsx:192 | the rate is not clamped: twice as many booked nights as days give 200 |
| Money.SourceAmount | src/components/Dashboard.tsx:103 | the original amount when it is present and non-zero, otherwise the stored amount |
| Money.UsdValue | src/components/Dashboard.tsx:105-107 | lira amounts are divided by 30.5, any other amount is taken as it is |
| Money.LiraPreferredOverStoredDollars | src/components/Analytics.tsx:93-96 | a lira transaction is counted from its original amount, not its stored dollar amount |
| Money.SumUsd | src/components/Dashboard.tsx:101-109 | the dollar values of a list added up in order; stated by Money.SumUsdAppend and Accounting.ReduceIsSums |
| Money.SumUsdAppend | src/components/Dashboard.tsx:101-109 | the monthly total over two lists is the sum of their totals |
| Dates.DaysInMonth | src/components/Calendar.tsx:7-11 | every month has 28 to 31 days, and February has 29 exactly in a leap year |
| Dates.MonthOf | src/components/Calendar.tsx:27-31 | the month index is carried into a month number 0..11 without changing the index |
| Dates.MonthOfIndex | src/components/Calendar.tsx:27-31 | a month already in range is carried to itself |
| Dates.Normalize | src/components/Analytics.tsx:81-82 | any day number is carried into a valid date |
| Dates.MakeDate | src/components/Analytics.tsx:81-82 | `new Date(year, month, day)` gives a valid date for any integers |
| Dates.MakeDateInMonth | src/components/admin/CalendarManager.tsx:112 | a day inside the carried month is kept as it is |
| Dates.MakeDateSameIndex | src/components/Analytics.tsx:127-128 | only the month index `year * 12 + month` matters |
| Dates.MakeDateOfValid | src/components/admin/CalendarManager.tsx:112 | a valid date is built back unchanged |
| Dates.MonthLength | src/components/Analytics.tsx:130 | every month, by index, has 28 to 31 days |
| Dates.NextMonthStart | src/components/Analytics.tsx:81-82 | each month starts right after the previous month's last day |
| Dates.MonthStartMonotone | src/components/Analytics.tsx:81-82 | an earlier month ends before a later month starts |
| Dates.NormalizeDayNumber | src/components/Analytics.tsx:81-82 | a carried date lies `day - 1` days after the first of the named month, whatever the day |
| Dates.MakeDateDayNumber | src/components/Analytics.tsx:81-82 | `new Date(y, m, d)` lies `d - 1` days after the first of month `m`, for any integers |
| Dates.DayZeroNumber | src/components/Analytics.tsx:130 | day 0 of the next month is the last day of the month |
| Dates.DayZeroOfNextMonth | src/components/Analytics.tsx:130 | `new Date(y, m + 1, 0)` is the date whose day is the month's length |
| Dates.DayNumberInMonth | src/components/admin/CalendarManager.tsx:67-68 | a valid date lies between its month's first and last day |
| Dates.InMonthIff | src/components/admin/CalendarManager.tsx:67-74 | a day lies within month `k` exactly when its date belongs to that month |
| Dates.Weekday | src/components/Calendar.tsx:13-17 | `getDay()` is between 0 and 6 |
| Dates.WeekdayNext | src/components/Calendar.tsx:13-17 | the weekday moves on by one each day, Saturday followed by Sunday |
| Dates.DaysToMsMonotone | src/components/admin/CalendarManager.tsx:114-115 | midnights keep the order of their days and lie a whole day apart |
| Dates.DayOfTimeOf | src/components/Dashboard.tsx:77-79 | a time of day on a date falls on that date's day |
| Dates.MonthIndexAbove | src/components/YearlyCalendar.tsx:46-47 | searching upward from a month that starts on or before the day finds the month holding the day |
| Dates.MonthIndexBelow | src/components/YearlyCalendar.tsx:46-47 | searching downward from a month that ends after the day finds the month holding the day |
| Dates.MonthIndexOfDay | src/components/YearlyCalendar.tsx:46-47 | every day number, before or after 1970, lies in the month found |
| Dates.MonthOfDay | src/components/YearlyCalendar.tsx:46-47 | `getMonth()` of a day of any year is between 0 and 11 |
| Dates.MonthIndexUnique | src/components/YearlyCalendar.tsx:46-47 | a day lies in one month only |
| Dates.MonthOfDayOf | src/components/YearlyCalendar.tsx:46-47 | `getMonth()` of a valid date is the date's own month, whatever its year |
| MonthWindows.QueryWindow | src/components/Dashboard.tsx:90-91 | the bounds `new Date(y, m, 1)` and `new Date(y, m + 1, 0)` at midnight; stated by MonthWindows.QueryWindowIsMonthWindow, MonthWindows.QueryWindowFrom and MonthWindows.QueryWindowTo |
| MonthWindows.QueryWindowIsMonthWindow | src/components/Dashboard.tsx:90-99 | the query's bounds are midnight on the month's first day and midnight on its last day, the first strictly before the second |
| MonthWindows.QueryWindowFrom | src/components/Analytics.tsx:81 | `new Date(y, m, 1)` is midnight on the first of the month |
| MonthWindows.QueryWindowTo | src/components/Analytics.tsx:82 | `new Date(y, m + 1, 0)` is midnight on the last day of the month |
| MonthWindows.WindowsDisjoint | src/components/Analytics.tsx:81-90 | windows of different months share no instant, so no row is counted in two months |
| MonthWindows.LastDayAfterMidnightUncounted | src/components/Dashboard.tsx:90-99 | an instant just after midnight of a month's last day lies in no month's window: such rows are never counted |
| MonthWindows.NotInWindowAfter | src/components/Dashboard.tsx:99 | a window ending at midnight of a day misses the rest of that day |
| MonthWindows.WindowIncome | src/components/Dashboard.tsx:93-109 | the month total over the user's income rows dated in the window; stated by MonthWindows.WindowIncomeIgnoresOthers and MonthWindows.WindowIncomeAddsRow |
| MonthWindows.WindowIncomeIgnoresOthers | src/components/Dashboard.tsx:93-99 | a row of another user, an expense, or a row dated outside the window adds nothing to the month total |
| MonthWindows.WindowIncomeAddsRow | src/components/Dashboard.tsx:101-109 | a counted row adds its dollar value to the month total |
| MonthWindows.TotalOfSnoc | src/components/Analytics.tsx:92-97 | appending a month adds its amount to the total |
| MonthWindows.Build | src/components/Dashboard.tsx:89 | the built series has one entry per step |
| MonthWindows.BuildAt | src/components/Dashboard.tsx:89-115 | entry `j` is built from the offset `count - 1 - j` |
| MonthWindows.Series | src/components/Dashboard.tsx:89-115 | a series has as many entries as months requested |
| MonthWindows.SeriesAt | src/components/Dashboard.tsx:89-115 | entry `j` is the month `count - 1 - j` months back and its income |
| MonthWindows.SeriesSnoc | src/components/Dashboard.tsx:112-115 | one more step of the loop appends the next month's entry |
| MonthWindows.BuildSuffix | src/components/Analytics.tsx:80-82 | the last months of a longer series are the shorter series |
| MonthWindows.SeriesMonths | src/components/Dashboard.tsx:89-91 | the series runs over consecutive months, oldest first, ending with the current month |
| MonthGrid.DaysInMonth | src/components/Calendar.tsx:7-11 | the number of days of the shown month in the Gregorian calendar; stated by MonthGrid.DaysInMonthAsBuilt |
| MonthGrid.FirstDayOfMonth | src/components/Calendar.tsx:13-17 | the weekday, 0 (Sunday) to 6, of the first of the shown month; stated by MonthGrid.FirstDayAsBuilt |
| MonthGrid.Grid | src/components/Calendar.tsx:84-93 | as many blanks as the weekday of the first, then every day of the month once, each in the column of its weekday; stated by MonthGrid.GridLayout and MonthGrid.GridColumns |
| MonthGrid.DaysInMonthAsBuilt | src/components/Calendar.tsx:7-11 | `new Date(year, month + 1, 0).getDate()` is the Gregorian length of the shown month |
| MonthGrid.FirstDayAsBuilt | src/components/Calendar.tsx:13-17 | `firstDayOfMonth` is the weekday of the first of the shown month, a column 0 to 6 |
| MonthGrid.Layout | src/components/Calendar.tsx:84-93 | the blank cells, then the days from 1; stated by MonthGrid.LayoutShape |
| MonthGrid.LayoutShape | src/components/Calendar.tsx:84-93 | the blanks come first, then each day once, in order |
| MonthGrid.GridLayout | src/components/InlineCalendar.tsx:96-105 | the grid holds the weekday of the first as blanks and then every day of the month |
| MonthGrid.GridColumns | src/components/admin/CalendarManager.tsx:33-43 | each day sits in the column of its own weekday |
| MonthGrid.Shift | src/components/Calendar.tsx:26-32 | `new Date(year, month + delta)`, on the first of that month; stated by MonthGrid.ShiftMoves |
| MonthGrid.ShiftMoves | src/components/Calendar.tsx:26-32 | the previous and next buttons land on the first of the month before or after |
| MonthGrid.PreviousThenNext | src/components/InlineCalendar.tsx:35-41 | previous then next, or next then previous, returns to the first of the shown month |
| Accounting.StartOfMonth | src/components/Accounting.tsx:33-35 | `setDate(1)` gives the first of today's month |
| Accounting.EndOfMonthAsWritten | src/components/Accounting.tsx:37-40 | the end day as written is a valid date |
| Accounting.EndOfMonth | src/components/Accounting.tsx:37-40 | the corrected end day is a valid date |
| Accounting.EndOfMonthAsWrittenOverruns | src/components/Accounting.tsx:37-40 | on 31 January the end as written is 28 February, while the corrected end is 31 January |
| Accounting.EndOfMonthIsLastDay | src/components/Accounting.tsx:37-40 | the corrected end is the last day of today's month |
| Accounting.EndOfMonthAsWrittenEarlyInMonth | src/components/Accounting.tsx:37-40 | while today's day exists in the next month, the written end and the corrected end agree |
| Accounting.BoundDays | src/components/Accounting.tsx:33-40 | the window runs from the month's first day to its last day |
| Accounting.StartDay | src/components/Accounting.tsx:33-35 | the window starts on the month's first day |
| Accounting.EndDay | src/components/Accounting.tsx:37-40 | the window ends on the month's last day |
| Accounting.MonthWindow | src/components/Accounting.tsx:33-47 | the window from midnight on the first to the last millisecond of the corrected month end; stated by Accounting.MonthWindowIsMonth |
| Accounting.MonthWindowIsMonth | src/components/Accounting.tsx:42-47 | with the corrected month end, an instant is selected exactly when its date is in today's month |
| Accounting.WholeDays | src/components/Accounting.tsx:35-40 | from midnight of the first day to the last millisecond of the last day lie exactly the instants of the days in between |
| Accounting.Reduce | src/components/Accounting.tsx:52-71 | the `reduce` over the rows in order from zero totals; stated by Accounting.ReduceIsSums |
| Accounting.ReduceIsSums | src/components/Accounting.tsx:52-71 | each total of the reduce is the dollar sum of the rows of its kind |
| Accounting.Summarize | src/components/Accounting.tsx:52-71 | income, expenses and pending payments are the dollar sums of the income rows, the other rows and the pending income rows |
| Accounting.IncomeAndExpensesPartition | src/components/Accounting.tsx:58-65 | every row is counted once, as income or as an expense |
| Accounting.PendingWithinIncome | src/components/Accounting.tsx:58-62 | with no negative amounts, pending payments never exceed income |
| Accounting.RowQuery | src/components/Accounting.tsx:42-47 | the query's row filter: the user's rows dated in the window; stated by Accounting.RowQueryExactly |
| Accounting.RowQueryExactly | src/components/Accounting.tsx:42-47 | a row is returned exactly when it is the user's and dated in the window, and the rows keep their table order |
| Accounting.LoadFinancialData | src/components/Accounting.tsx:26-84 | fails exactly without a user or on a query error; otherwise the totals are taken over the user's rows of the current month (with the corrected month end), and net income is income minus expenses |
| Analytics.MonthlyRevenue | src/components/Analytics.tsx:74-108 | the six-month series, oldest first, its running total, and last month's and this month's totals as the series' last two entries |
| Analytics.IsEventIn | src/components/Analytics.tsx:117-121 | on one of the properties, starting no earlier than the first midnight and ending no later than the last; stated by Analytics.EventsIn |
| Analytics.EventQuery | src/components/Analytics.tsx:117-121 | the events query as a row filter; stated by Analytics.EventsIn |
| Analytics.EventsIn | src/components/Analytics.tsx:117-128 | exactly the events on one of the properties that start and end inside the window |
| Analytics.Ids | src/components/Analytics.tsx:119 | the property ids, one per property, in order |
| Analytics.Performance | src/components/Analytics.tsx:160-202 | each row keeps the property's id and name, with `rating || 0` |
| Analytics.AverageStay | src/components/Analytics.tsx:209 | without events the booked nights themselves; otherwise the rounded average per event |
| Analytics.LoadAnalytics | src/components/Analytics.tsx:54-225 | fails without a user or a property list; otherwise revenue, growth, occupancy, average stay, bookings and per-property figures are those of the current and previous month's rows |
| Analytics.NoPreviousBookings | src/components/Analytics.tsx:212-214 | bookings growth is 0 when last month had no events |
| Analytics.PropertyOccupancyUnclamped | src/components/Analytics.tsx:192 | per-property occupancy is not clamped: 62 booked nights in a 31-day month show as 200 |
| Dashboard.MonthlyIncome | src/components/Dashboard.tsx:88-115 | the twelve-month income series, oldest first, ending with the current month |
| Dashboard.LoadDashboard | src/components/Dashboard.tsx:34-135 | fails exactly without a user; otherwise property count, booked and available nights, occupancy, the twelve-month series and the current month's income as its last entry; the occupancy chart's booked and available nights add up to every possible night, the available part negative exactly when more nights are booked than exist |
| Dashboard.IncomeAgreesWithAnalytics | src/components/Dashboard.tsx:118 | the income card shows the current month, and the chart's last six months are the analytics page's series |
| Calendar.EventForDay | src/components/Calendar.tsx:41-43 | no event exactly when none is set on the day; otherwise the first event set on that day |
| Calendar.SampleEventDays | src/components/Calendar.tsx:35-39 | the sample shows events exactly on the 15th, 20th and 25th, the 20th being the check-in |
| Calendar.CalendarView.constructor | src/components/Calendar.tsx:5 | the view opens on today |
| Calendar.CalendarView.PreviousMonth | src/components/Calendar.tsx:26-28 | the shown date moves to the first of the previous month |
| Calendar.CalendarView.NextMonth | src/components/Calendar.tsx:30-32 | the shown date moves to the first of the next month |
| InlineCalendar.StatusOf | src/components/InlineCalendar.tsx:50-55 | no status exactly when the day is in no list; available exactly when it is in the available list; booked and maintenance only from their lists |
| InlineCalendar.StatusIsTheListHoldingTheDay | src/components/InlineCalendar.tsx:50-55 | with disjoint lists, a day is booked or under maintenance exactly when its list holds it |
| InlineCalendar.SampleIsDisjoint | src/components/InlineCalendar.tsx:44-48 | the sample's three lists share no day |
| InlineCalendar.AvailableApart | src/components/InlineCalendar.tsx:45-47 | no available day is booked or under maintenance |
| InlineCalendar.BookedApart | src/components/InlineCalendar.tsx:46-47 | no booked day is under maintenance |
| InlineCalendar.Statuses | src/components/InlineCalendar.tsx:104-106 | one status per day of the shown month, that day's status |
| InlineCalendar.InlineView.constructor | src/components/InlineCalendar.tsx:5 | the view opens on today |
| InlineCalendar.InlineView.PreviousMonth | src/components/InlineCalendar.tsx:35-37 | the shown date moves to the first of the previous month |
| InlineCalendar.InlineView.NextMonth | src/components/InlineCalendar.tsx:39-41 | the shown date moves to the first of the next month |
| CalendarManager.IsLoaded | src/components/admin/CalendarManager.tsx:68-82 | the filters of the events query: inside the month window and matching the property and owner unless `all`; stated by CalendarManager.LoadedExactly |
| CalendarManager.LoadQuery | src/components/admin/CalendarManager.tsx:68-82 | the events query as a row filter; stated by CalendarManager.LoadedExactly |
| CalendarManager.EventsOf | src/components/admin/CalendarManager.tsx:84-87 | one event per returned row, in order |
| CalendarManager.Loaded | src/components/admin/CalendarManager.tsx:64-87 | the rows the month query selects, as events, in table order; stated by CalendarManager.LoadedExactly |
| CalendarManager.LoadedExactly | src/components/admin/CalendarManager.tsx:64-87 | an event is loaded exactly when a row carrying it lies in the shown month's window and matches the selected property and owner |
| CalendarManager.CrossingEventLeftOut | src/components/admin/CalendarManager.tsx:73-74 | an event starting before the month or ending after midnight of its last day is not loaded |
| CalendarManager.DayStart | src/components/admin/CalendarManager.tsx:112 | `new Date(year, month, day)` at midnight; stated by CalendarManager.DayStartIsMidnight |
| CalendarManager.DayStartIsMidnight | src/components/admin/CalendarManager.tsx:112 | the midnight of the day counted from the first of the shown month, days outside the month carried over; consecutive days lie one day apart |
| CalendarManager.DayEvents | src/components/admin/CalendarManager.tsx:111-118 | `getDayEvents`: the loaded events running through the day's midnight; stated by CalendarManager.DayEventsExactly |
| CalendarManager.DayEventsExactly | src/components/admin/CalendarManager.tsx:111-118 | a day lists exactly the loaded events running through its midnight, in loaded order |
| CalendarManager.LateStartMissesFirstDay | src/components/admin/CalendarManager.tsx:112-116 | an event starting after midnight is not listed on its first day |
| CalendarManager.AddedEventListedLast | src/components/admin/CalendarManager.tsx:120-122 | an added event is listed last on the days it covers and changes no other day |
| CalendarManager.Manager.constructor | src/components/admin/CalendarManager.tsx:24-31 | opens on today with both filters at `all`, no events, loading and no error |
| CalendarManager.Manager.LoadEvents | src/components/admin/CalendarManager.tsx:64-94 | on a failed read the error is set and the events are kept; otherwise the events are the rows the filters select; loading ends either way |
| CalendarManager.Manager.AddEvent | src/components/admin/CalendarManager.tsx:120-122 | the new event is appended and nothing else changes |
| CalendarManager.Manager.PreviousMonth | src/components/admin/CalendarManager.tsx:103-105 | the shown date moves to the first of the previous month and nothing else changes |
| CalendarManager.Manager.NextMonth | src/components/admin/CalendarManager.tsx:107-109 | the shown date moves to the first of the next month and nothing else changes |
| YearlyCalendar.YearWindow | src/components/YearlyCalendar.tsx:24-25 | from midnight of 1 January to midnight of 31 December of the year; stated by YearlyCalendar.NotBeforeYear and YearlyCalendar.NotAfterYear |
| YearlyCalendar.StartMonth | src/components/YearlyCalendar.tsx:46 | `getMonth()` of the start day, whatever year it falls in; stated through Dates.MonthOfDayOf |
| YearlyCalendar.EndMonth | src/components/YearlyCalendar.tsx:47 | `getMonth()` of the end day, whatever year it falls in; stated through Dates.MonthOfDayOf |
| YearlyCalendar.Covering | src/components/YearlyCalendar.tsx:45-53 | a month's count never exceeds the number of events |
| YearlyCalendar.AddSpan | src/components/YearlyCalendar.tsx:49-52 | each month from the start month to the end month goes up by one and every other month is unchanged |
| YearlyCalendar.CountMonths | src/components/YearlyCalendar.tsx:44-53 | each month's count is the number of events whose start month to end month, as `getMonth()` gives them, runs through it; only the current year's months are keyed |
| YearlyCalendar.CoveringStep | src/components/YearlyCalendar.tsx:45-53 | one more event raises exactly the months it runs through by one |
| YearlyCalendar.BackwardsEventAddsNothing | src/components/YearlyCalendar.tsx:49 | an event whose end month comes before its start month counts in no month |
| YearlyCalendar.BackwardsRowAcrossYears | src/components/YearlyCalendar.tsx:38-52 | a row from 10 March of the year to 20 December of the year before passes the year's query and counts once in each month from March to December |
| YearlyCalendar.CoveringOne | src/components/YearlyCalendar.tsx:45-52 | one event counts once in each month from its start month to its end month and nowhere else |
| YearlyCalendar.RowOfEarlierYearLoaded | src/components/YearlyCalendar.tsx:38-47 | a row starting in the year and ending in an earlier year passes the year's query, with its two dates' own months |
| YearlyCalendar.NotBeforeYear | src/components/YearlyCalendar.tsx:40 | a date of a year is on or after that year's first midnight |
| YearlyCalendar.NotAfterYear | src/components/YearlyCalendar.tsx:41 | a date of the year or an earlier one is on or before the year's last midnight |
| YearlyCalendar.HitsOfYear | src/components/YearlyCalendar.tsx:49 | an event counts in as many months as lie between its start and end month |
| YearlyCalendar.MonthsTotalSnoc | src/components/YearlyCalendar.tsx:45-53 | one more event adds the months it runs through to the year's total |
| YearlyCalendar.NoEventsNoTotal | src/components/YearlyCalendar.tsx:44 | with no events every count is zero |
| YearlyCalendar.TotalIsSumOfWidths | src/components/YearlyCalendar.tsx:44-53 | summed over the twelve months, the counts add up to the months each event spans |
| YearlyCalendar.ActivityOf | src/components/YearlyCalendar.tsx:63-69 | none exactly at zero, low at one or two, medium from three to five, high above five |
| YearlyCalendar.ActivityMonotone | src/components/YearlyCalendar.tsx:63-69 | more events never show less activity |
| YearlyCalendar.ActivityColor | src/components/YearlyCalendar.tsx:71-78 | no activity exactly takes the default colour |
| YearlyCalendar.ColoursDistinct | src/components/YearlyCalendar.tsx:71-78 | different levels are drawn in different colours |
| YearlyCalendar.YearView.constructor | src/components/YearlyCalendar.tsx:6-8 | opens on the given year with no counts, loading |
| YearlyCalendar.YearView.LoadYearlyEvents | src/components/YearlyCalendar.tsx:19-61 | without a user or properties the counts are kept; otherwise each month's count is the number of loaded events whose `getMonth()` span runs through it; loading ends either way |
| YearlyCalendar.YearView.PreviousYear | src/components/YearlyCalendar.tsx:88 | the year goes back by one and nothing else changes |
| YearlyCalendar.YearView.NextYear | src/components/YearlyCalendar.tsx:95 | the year goes forward by one and nothing else changes |
| YearlyCalendar.YearView.MonthActivity | src/components/YearlyCalendar.tsx:63-69 | `getMonthActivity`: the level of the count stored for the month of the current year, 0 when none is stored; stated by YearlyCalendar.ActivityOf and YearlyCalendar.OtherYearShowsNothing |
| YearlyCalendar.OtherYearShowsNothing | src/components/YearlyCalendar.tsx:63-65 | counts keyed by one year show no activity for any other year |
| Listings.BandsPartition | src/components/Listings.tsx:86-89 | every rate falls in exactly one of the low, medium and high bands |
| Listings.InsertKeepsBound | src/components/Listings.tsx:92-97 | inserting keeps every key above a common lower bound |
| Listings.InsertSorted | src/components/Listings.tsx:92-97 | inserting into a sorted list keeps it sorted |
| Listings.InsertPermutes | src/components/Listings.tsx:92-97 | inserting adds exactly the one element |
| Listings.SortBy | src/components/Listings.tsx:92-97 | a stable sort by increasing key; stated by Listings.SortBySorted and Listings.EqualKeysKeepOrder |
| Listings.SortBySorted | src/components/Listings.tsx:92-97 | the sort's result is ordered by the key and a permutation of its input |
| Listings.EqualKeysKeepOrder | src/components/Listings.tsx:96 | a comparator that always answers 0 leaves the order unchanged, the sort being stable |
| Listings.Shown | src/components/Listings.tsx:78-98 | `filterListings()`: the filter, then the sort; stated by Listings.ShownOrder |
| Listings.ShownOrder | src/components/Listings.tsx:78-98 | the page shows exactly the matching listings, each as often as it occurs, by increasing or decreasing rate, by decreasing rating (missing as 0), or in sample order for 'newest' |
| Listings.NoFilterShowsAll | src/components/Listings.tsx:20-23 | the initial empty search with every drop-down on 'all' and 'newest' shows the whole sample in order |
| Listings.TotalRevenue | src/components/Listings.tsx:75 | the sum of the listings' monthly rates, in order; its value on the sample is stated by Listings.SampleStatsValues |
| Listings.AverageRate | src/components/Listings.tsx:73 | the rounded mean rate, `NaN` for an empty list; stated by Listings.SampleStatsValues |
| Listings.SampleStats | src/components/Listings.tsx:71-76 | the stats cards' figures for the sample listings; stated by Listings.SampleStatsValues |
| Listings.SampleStatsValues | src/components/Listings.tsx:71-76 | the sample's figures: three listings, 7800 in total, 2600 on average, 85 per cent occupancy |
| PropertyList.Visible | src/components/PropertyList.tsx:28-34 | `filteredProperties`; stated by PropertyList.VisibleExactly |
| PropertyList.VisibleExactly | src/components/PropertyList.tsx:28-34 | exactly the properties whose name or address includes the term and whose type the drop-down admits, in order; an empty term keeps those with a name or an address |
| PropertyList.SourceRate | src/components/PropertyList.tsx:98 | the original amount when present and non-zero, otherwise the monthly rate |
| PropertyList.RateShown | src/components/PropertyList.tsx:97-101 | the rate cell: the source rate in its original currency, dollars when none is recorded, formatted in the chosen currency; stated by PropertyList.EnteredAmountShown |
| PropertyList.EnteredAmountShown | src/components/PropertyList.tsx:97-101 | a rate entered in lira is shown in lira as entered |
| PropertyList.HandleDelete | src/components/PropertyList.tsx:36-60 | nothing happens without confirmation; once confirmed the delete is sent, a failure raises the alert, and the parent is told the id only after a success when it listens |
| Leads.Transform | src/components/Leads.tsx:58-70 | the id, name and email are kept and the phone is always present |
| Leads.TransformRoundTrip | src/components/Leads.tsx:58-70 | a row is recovered from its lead exactly when it had a phone; otherwise a missing phone comes back empty |
| Leads.TransformAll | src/components/Leads.tsx:89 | one lead per row, in order, each the row transformed |
| Leads.Updated | src/components/Leads.tsx:104-110 | same length and ids; the lead with the updated id is replaced and the others are kept |
| Leads.UpdateIdempotent | src/components/Leads.tsx:104-110 | applying the same update twice is applying it once |
| Leads.Visible | src/components/Leads.tsx:132-141 | `filteredLeads`; stated by Leads.VisibleExactly |
| Leads.VisibleExactly | src/components/Leads.tsx:132-141 | exactly the leads whose name, email or phone includes the term and whose status the drop-down admits, in order |
| Leads.NoFilterShowsAll | src/components/Leads.tsx:20-21 | the initial empty search on 'all' shows every lead |
| Leads.LeadList.constructor | src/components/Leads.tsx:25-27 | no leads, loading and no error |
| Leads.LeadList.Load | src/components/Leads.tsx:72-98 | without a user the error says so; a failed read sets the load error and keeps the leads; otherwise the rows, transformed, replace them; loading ends either way |
| Leads.LeadList.OnChange | src/components/Leads.tsx:38-50 | an inserted row goes first, an updated row replaces its lead, a deletion changes nothing |
| Leads.LeadList.Add | src/components/Leads.tsx:100-102 | the new lead goes first and nothing else changes |
| Leads.LeadList.UpdateLead | src/components/Leads.tsx:104-110 | the lead with the same id is replaced and nothing else changes |
| Leads.UpdateOfUnknownLead | src/components/Leads.tsx:104-110 | an update for an id not in the list changes nothing |
| Transactions.Updated | src/components/Transactions.tsx:56-62 | same length and ids; the transaction with the updated id is replaced and the others are kept |
| Transactions.Deleted | src/components/Transactions.tsx:64-66 | `filter(t => t.id !== id)`; stated by Transactions.DeletedExactly |
| Transactions.DeletedExactly | src/components/Transactions.tsx:64-66 | exactly the transactions with another id remain, in order |
| Transactions.DeleteAfterUpdate | src/components/Transactions.tsx:56-66 | deleting an updated transaction leaves what deleting it directly leaves |
| Transactions.UpdateIdempotent | src/components/Transactions.tsx:56-62 | applying the same update twice is applying it once |
| Transactions.DeleteAfterAdd | src/components/Transactions.tsx:52-66 | adding a transaction and then deleting its id leaves what deleting the id alone leaves |
| Transactions.Visible | src/components/Transactions.tsx:76-84 | `filteredTransactions`; stated by Transactions.VisibleExactly |
| Transactions.VisibleExactly | src/components/Transactions.tsx:76-84 | exactly the transactions whose description includes the term and whose type and status the drop-downs admit, in order |
| Transactions.NoFilterShowsAll | src/components/Transactions.tsx:17-19 | the initial empty search with both drop-downs on 'all' shows every transaction |
| Transactions.Display | src/components/Transactions.tsx:187-189 | the lira sign exactly for a lira transaction, showing its original amount; otherwise the stored dollar amount |
| Transactions.TransactionList.constructor | src/components/Transactions.tsx:22-24 | no transactions, loading and no error |
| Transactions.TransactionList.Load | src/components/Transactions.tsx:30-50 | without a user or on a failed read the error is set and the list kept; otherwise the rows (none for no data) replace it; loading ends either way |
| Transactions.TransactionList.Add | src/components/Transactions.tsx:52-54 | the new transaction goes first and nothing else changes |
| Transactions.TransactionList.Update | src/components/Transactions.tsx:56-62 | the transaction with the same id is replaced and nothing else changes |
| Transactions.TransactionList.Delete | src/components/Transactions.tsx:64-66 | every transaction with the id is removed and nothing else changes |
| AddPropertyModal.InitialForm | src/components/AddPropertyModal.tsx:14-28 | the form opens empty, in lira, as an available apartment, assigned to the owner selected in the list (or nobody) |
| AddPropertyModal.UsdRate | src/components/AddPropertyModal.tsx:45 | the dollar rate converts back to the amount entered at 35.39 lira to the dollar |
| AddPropertyModal.EmptyFieldsStored | src/components/AddPropertyModal.tsx:57-61 | empty image, tenant and exit-date fields are stored as `null`, an empty area as 0, and the owner as selected |
| AddPropertyModal.ZeroParses | src/components/AddPropertyModal.tsx:57 | the area's fallback text parses to 0 |
| AddPropertyModal.Record | src/components/AddPropertyModal.tsx:44-62 | `propertyData` for a rate that parsed; stated by AddPropertyModal.UsdRate and AddPropertyModal.EmptyFieldsStored |
| AddPropertyModal.Submit | src/components/AddPropertyModal.tsx:32-81 | the outcome of `handleSubmit`; stated by AddPropertyModal.SubmitGuards |
| AddPropertyModal.SubmitGuards | src/components/AddPropertyModal.tsx:32-81 | the insert is sent exactly when there is a user and the rate parses; an unparsable rate gives 'Invalid monthly rate'; the modal closes exactly when no error remains |
| AddPropertyModal.SanitisedRate | src/components/AddPropertyModal.tsx:41-42 | through the sanitiser a blank or lone-dot rate is refused and no accepted rate is negative |
| AddPropertyModal.AddPropertyForm.constructor | src/components/AddPropertyModal.tsx:13-30 | the initial form, not loading, no error |
| AddPropertyModal.AddPropertyForm.TypeRate | src/components/AddPropertyModal.tsx:168 | the rate field becomes the sanitised text and nothing else changes |
| AddPropertyModal.AddPropertyForm.SelectOwner | src/components/AddPropertyModal.tsx:116 | the owner field becomes the chosen owner and nothing else changes |
| AddPropertyModal.AddPropertyForm.HandleSubmit | src/components/AddPropertyModal.tsx:32-81 | the error, the row sent, the row added and the closing are those of the submit outcome; the form is kept and loading ends |
| EditPropertyModal.InitialRate | src/components/EditPropertyModal.tsx:13-24 | the rate opens on the amount entered, else the stored dollar rate; filled exactly when either exists; the currency defaults to lira; stored room counts read back unchanged |
| EditPropertyModal.InitialForm | src/components/EditPropertyModal.tsx:13-24 | the form the modal opens on; stated by EditPropertyModal.InitialRate |
| EditPropertyModal.UsdRate | src/components/EditPropertyModal.tsx:37-39 | no rate exactly when none parsed; lira are divided by 30.5, dollars kept |
| EditPropertyModal.Update | src/components/EditPropertyModal.tsx:37-53 | `propertyData`: no guard on the rate, an empty area as `NaN`; stated by EditPropertyModal.UnchangedSaveChangesDollars |
| EditPropertyModal.UnchangedSaveChangesDollars | src/components/EditPropertyModal.tsx:28-46 | saving a lira property added at 35.39 without changing anything rewrites its dollar rate at 30.5, keeping the amount entered |
| EditPropertyModal.RatePreview | src/components/EditPropertyModal.tsx:148-155 | the conversion preview under the rate field; stated by EditPropertyModal.PreviewMatchesStored |
| EditPropertyModal.PreviewMatchesStored | src/components/EditPropertyModal.tsx:148-155 | for lira the preview is, to the cent, the dollar rate saving stores; for dollars it shows the lira amount that converts back to the dollars saved |
| EditPropertyModal.EditPropertyForm.constructor | src/components/EditPropertyModal.tsx:12-26 | the form opens on the property, not loading, no error |
| EditPropertyModal.EditPropertyForm.TypeRate | src/components/EditPropertyModal.tsx:136 | the rate field becomes the sanitised text and nothing else changes |
| EditPropertyModal.EditPropertyForm.SelectCurrency | src/components/EditPropertyModal.tsx:141 | the currency becomes the one chosen and nothing else changes |
| EditPropertyModal.EditPropertyForm.HandleSubmit | src/components/EditPropertyModal.tsx:31-73 | the changes sent are the form's; a failed update sets the error; a row read back is passed on and closes the modal |
| AddTransactionModal.UsdAmount | src/components/AddTransactionModal.tsx:102-104 | no amount exactly when none parsed; the dollar amount converts back to the amount entered at 35.39 |
| AddTransactionModal.Record | src/components/AddTransactionModal.tsx:106-122 | the row `handleSubmit` inserts; stated by AddTransactionModal.RecordKeepsEntry |
| AddTransactionModal.RecordKeepsEntry | src/components/AddTransactionModal.tsx:106-122 | the row keeps the amount and currency typed, the property and the user, and a dollar amount that converts back to the amount typed; `created_at` and `updated_at` are both the moment of submitting |
| AddTransactionModal.Submit | src/components/AddTransactionModal.tsx:89-137 | the outcome of `handleSubmit`; stated by AddTransactionModal.SubmitGuards and AddTransactionModal.NoNaNGuard |
| AddTransactionModal.SubmitGuards | src/components/AddTransactionModal.tsx:89-137 | nothing is sent without a user or a property, and a signed-in user without a property sees 'Please select a property'; the modal closes exactly when a row is read back |
| AddTransactionModal.NoNaNGuard | src/components/AddTransactionModal.tsx:102-122 | an amount that is not a number is not refused: a lone dot is sent with no amount |
| AddTransactionModal.AddTransactionForm.constructor | src/components/AddTransactionModal.tsx:24-39 | an income of category Rent, completed, dated today, in lira, with no owner or property, no lists, not loading, no error |
| AddTransactionModal.AddTransactionForm.LoadOwners | src/components/AddTransactionModal.tsx:53-67 | on success the owners become the rows returned; on failure they are kept and the error is set |
| AddTransactionModal.AddTransactionForm.SelectOwner | src/components/AddTransactionModal.tsx:45-51 | the owner changes and the property is cleared; choosing no owner empties the property list |
| AddTransactionModal.AddTransactionForm.LoadProperties | src/components/AddTransactionModal.tsx:69-83 | on success the properties become the rows returned; on failure they are kept and the error is set |
| AddTransactionModal.AddTransactionForm.SelectProperty | src/components/AddTransactionModal.tsx:183 | the property field becomes the one chosen and nothing else changes |
| AddTransactionModal.AddTransactionForm.TypeAmount | src/components/AddTransactionModal.tsx:219 | the amount field becomes the sanitised text and nothing else changes |
| AddTransactionModal.AddTransactionForm.HandleSubmit | src/components/AddTransactionModal.tsx:89-137 | the error, the row sent, the row added and the closing are those of the submit outcome; the form and lists are kept and loading ends |
| AddTransactionModal.OwnerChangeNeedsProperty | src/components/AddTransactionModal.tsx:165 | after a new owner is picked, submitting fails on the property until one is chosen again |
| TransactionEditModal.InitialForm | src/components/TransactionEditModal.tsx:14-22 | the amount opens on the amount entered, else the stored amount; the currency defaults to dollars; the other fields are the transaction's |
| TransactionEditModal.UsdAmount | src/components/TransactionEditModal.tsx:36-38 | no amount exactly when none parsed; lira are divided by 30.5, dollars kept |
| TransactionEditModal.Update | src/components/TransactionEditModal.tsx:36-51 | the changes the update sends; stated by TransactionEditModal.UpdateAgreesWithDashboard and the two unchanged-save lemmas |
| TransactionEditModal.UpdateAgreesWithDashboard | src/components/TransactionEditModal.tsx:40-52 | the dollar amount written is the value the dashboards give the updated row |
| TransactionEditModal.UnchangedSaveChangesDollars | src/components/TransactionEditModal.tsx:36-51 | saving a lira transaction added at 35.39 without changing anything rewrites its dollar amount at 30.5 |
| TransactionEditModal.UnchangedDollarSaveKeepsAmount | src/components/TransactionEditModal.tsx:36-51 | a dollar transaction saved unchanged keeps its amount |
| TransactionEditModal.EditForm.constructor | src/components/TransactionEditModal.tsx:13-24 | the form opens on the transaction, not loading, no delete confirmation |
| TransactionEditModal.EditForm.TypeAmount | src/components/TransactionEditModal.tsx:123 | the amount field becomes the sanitised text and nothing else changes |
| TransactionEditModal.EditForm.SelectCurrency | src/components/TransactionEditModal.tsx:134 | the currency becomes the one chosen and nothing else changes |
| TransactionEditModal.EditForm.HandleSubmit | src/components/TransactionEditModal.tsx:32-67 | the changes sent are the form's; a row read back is passed on and closes the modal; loading ends |
| TransactionEditModal.EditForm.AskDelete | src/components/TransactionEditModal.tsx:205 | the delete confirmation opens and nothing else changes |
| TransactionEditModal.EditForm.CancelDelete | src/components/TransactionEditModal.tsx:240 | the delete confirmation closes and nothing else changes |
| TransactionEditModal.EditForm.HandleDelete | src/components/TransactionEditModal.tsx:69-85 | callable only while the delete confirmation is shown, its button being rendered only there (lines 231-247); on success the id is passed on and the modal closes; on failure nothing is passed on; loading ends |
| MessageModal.MentionWindow | src/components/MessageModal.tsx:103-118 | the search text of the mention pop-up; stated by MessageModal.MentionWindowExactly |
| MessageModal.MentionWindowExactly | src/components/MessageModal.tsx:103-118 | the pop-up opens exactly when the character under the cursor is not an `@` and an `@` precedes the cursor; the search text is what follows the last such `@` up to the cursor and holds no `@` |
| MessageModal.MentionOpens | src/components/MessageModal.tsx:110-111 | the last `@` at or before the cursor lies before it exactly when the character under the cursor is not an `@` and some `@` precedes the cursor |
| MessageModal.WindowHasNoAt | src/components/MessageModal.tsx:112 | the search text is the block after the `@` up to the cursor and holds no `@` |
| MessageModal.AtUnderCursorHides | src/components/MessageModal.tsx:110-117 | an `@` under the cursor closes the pop-up; at the end of `@a` it opens on `a` |
| MessageModal.SpliceMentionAsWritten | src/components/MessageModal.tsx:120-124 | the splice as written, from the message's last `@`; stated by MessageModal.SpliceAsWrittenDuplicates |
| MessageModal.SpliceAsWrittenDuplicates | src/components/MessageModal.tsx:120-124 | cutting at the message's last `@` rather than the pop-up's duplicates the text between the cursor and a later `@` |
| MessageModal.SpliceMention | src/components/MessageModal.tsx:120-124 | the corrected splice, from the pop-up's `@`; stated by MessageModal.SpliceReplacesWindow |
| MessageModal.SpliceReplacesWindow | src/components/MessageModal.tsx:120-124 | the corrected splice keeps the text before the `@` and from the cursor on, and puts `@email ` in place of the search text |
| MessageModal.AddressRunEnd | src/components/MessageModal.tsx:130 | the end of the longest run of address characters |
| MessageModal.TldRunEnd | src/components/MessageModal.tsx:130 | the end of the longest run of top-level-domain characters |
| MessageModal.LastDomainDot | src/components/MessageModal.tsx:130 | the last dot in the range that a top-level domain can follow, or -1 when there is none |
| MessageModal.MatchAt | src/components/MessageModal.tsx:130 | a match found at a position starts there and has the pattern's shape |
| MessageModal.DomainMatch | src/components/MessageModal.tsx:130 | the domain part found after the second `@` starts the match there and has the pattern's shape |
| MessageModal.MatchesFrom | src/components/MessageModal.tsx:130 | the global search's matches have the pattern's shape, start at or after the position, and do not overlap |
| MessageModal.SearchShape | src/components/MessageModal.tsx:130 | the global search's matches have the pattern's shape, start at or after the position, and do not overlap |
| MessageModal.MatchAtSuffix | src/components/MessageModal.tsx:130 | whether and where the pattern matches at a position depends only on the text from there on |
| MessageModal.SearchShifted | src/components/MessageModal.tsx:130 | the global search over a text with anything in front of it finds the text's own matches, moved along |
| MessageModal.MatchAtMention | src/components/MessageModal.tsx:130 | an `@` followed by a mention and no further address character matches exactly that mention |
| MessageModal.Blocks | src/components/MessageModal.tsx:131 | one block per match, each the match without its leading `@` |
| MessageModal.ExtractMentions | src/components/MessageModal.tsx:129-132 | `extractMentions`; stated by MessageModal.ExtractedMentionsShape and MessageModal.MentionExtracted |
| MessageModal.ExtractedMentionsShape | src/components/MessageModal.tsx:129-132 | every extracted mention has the shape `local@domain.tld` and occurs after an `@` in the content, in order of appearance |
| MessageModal.MentionExtracted | src/components/MessageModal.tsx:129-132 | a mention written after `@`, with no `@` before it and no address character after it, is extracted first, followed by the mentions of the rest |
| MessageModal.MatchIsMention | src/components/MessageModal.tsx:131 | a match without its leading `@` is a mention following an `@` |
| MessageModal.ExtractMentionsExample | src/components/MessageModal.tsx:129-132 | a mention is found at the start of a message and after other text |
| MessageModal.MentionAtStart | src/components/MessageModal.tsx:130-131 | `@a@b.c` holds the one mention `a@b.c` |
| MessageModal.MentionAfterText | src/components/MessageModal.tsx:130-131 | `x@a@b.c` holds the one mention `a@b.c` |
| MessageModal.ProfileFor | src/components/MessageModal.tsx:177 | no profile exactly when none has the e-mail; otherwise a loaded profile with that e-mail |
| MessageModal.Notified | src/components/MessageModal.tsx:175-193 | the users notified of a sent message; stated by MessageModal.NotifiedExactly |
| MessageModal.NotifiedExactly | src/components/MessageModal.tsx:175-193 | one notification per mention that matches a loaded profile, each to the owner of a profile whose e-mail was mentioned |
| MessageModal.NoProfilesNoNotification | src/components/MessageModal.tsx:177-189 | with no loaded profiles nobody is notified |
| MessageModal.Chat.constructor | src/components/MessageModal.tsx:28-34 | no messages, an empty input, not loading, the pop-up closed, no profiles, the cursor at 0 |
| MessageModal.Chat.LoadMessages | src/components/MessageModal.tsx:72-88 | the messages become the rows read, or are kept on an error or no data; nothing else changes |
| MessageModal.Chat.LoadProfiles | src/components/MessageModal.tsx:90-101 | the profiles become the rows read, or are kept on an error or no data; nothing else changes |
| MessageModal.Chat.OnChange | src/components/MessageModal.tsx:58-64 | an inserted message is appended; other changes are ignored |
| MessageModal.Chat.InputChange | src/components/MessageModal.tsx:103-118 | the input and cursor are taken; the pop-up is open exactly when there is a search text, which then becomes the search |
| MessageModal.Chat.MentionSelect | src/components/MessageModal.tsx:120-127 | the input becomes the corrected splice and the pop-up closes |
| MessageModal.Chat.Send | src/components/MessageModal.tsx:134-201 | a blank input sends nothing; otherwise the trimmed text is appended at once; on success the input is cleared and the mentioned profiles' owners are notified; on failure the text is restored and the appended message stays |
| MessageModal.Chat.Post | src/components/MessageModal.tsx:139-201 | the part after the blank check: the same outcome for the trimmed text |
| MessageModal.Rollback | src/components/MessageModal.tsx:197 | `filter(m => m.id !== rollbackId)`; stated by MessageModal.RollbackKeeps |
| MessageModal.RollbackKeeps | src/components/MessageModal.tsx:197 | filtering on an id no message has removes nothing |
| MessageModal.FailedSendKeepsOptimistic | src/components/MessageModal.tsx:194-198 | a failed send leaves the optimistic message in the list, last |
| SignUp.Rules | src/components/auth/SignUp.tsx:19-33 | the four password rules, each with its message, in the order they are checked; stated by SignUp.ValidationIsFirstBrokenRule |
| SignUp.ValidatePassword | src/components/auth/SignUp.tsx:19-33 | valid exactly when at least six UTF-16 code units long, as `password.length` counts, an upper-case letter, a lower-case letter and a digit; the message is empty exactly when valid |
| SignUp.SurrogatePairsCountTwice | src/components/auth/SignUp.tsx:20 | `Ab1` followed by two emoji, five characters but seven UTF-16 units, is a valid password |
| SignUp.ValidationIsFirstBrokenRule | src/components/auth/SignUp.tsx:19-33 | the message is that of the first rule, in checking order, the password breaks |
| SignUp.Submit | src/components/auth/SignUp.tsx:35-176 | the outcome of `handleSubmit`; stated by the lemmas below |
| SignUp.RulesBeforeConfirmation | src/components/auth/SignUp.tsx:39-49 | a password breaking a rule is reported before the confirmation is compared; a mismatch stops the submission; nothing is sent exactly when one of the two checks fails |
| SignUp.ExistingProfileStops | src/components/auth/SignUp.tsx:57-67 | an existing profile with the e-mail stops the submission after the sign-out and the lookup, before any account is created |
| SignUp.NeverSelfAdmin | src/components/auth/SignUp.tsx:95-107 | the profile is written with `is_admin` false and the role asked for |
| SignUp.SuccessByRole | src/components/auth/SignUp.tsx:116-157 | a registration succeeds exactly when no error is shown; it redirects with the role's message and files an admin request exactly for the admin role |
| SignUp.RedirectMessage | src/components/auth/SignUp.tsx:151-156 | the pending-approval message for the admin role and the account-created message for any other; stated by SignUp.SuccessByRole |
| SignUp.RequestOnlyOnSuccess | src/components/auth/SignUp.tsx:109-126 | a failed or stopped submission files no admin request |
| SignUp.SignUpForm.constructor | src/components/auth/SignUp.tsx:16-17 | no error, not loading |
| SignUp.SignUpForm.HandleSubmit | src/components/auth/SignUp.tsx:35-176 | the error, the calls made and the redirect are those of the submit outcome; loading ends false once past the local checks |

## Left out

- Remote calls (the database client, `auth.*` and the realtime channels) are not modelled as code. Their replies are parameters of the methods and functions that use them.
- The ordering the database applies with `.order(...)` is not modelled. Query results arrive in the order given, and the transactions read is taken to be newest first.
- CalendarManager.LoadedExactly: the owner filter on the embedded `properties(assigned_to)` row is taken to drop the events of other owners' properties. The query does not mark the embedding `!inner`, and without it the database filters only the embedded rows: the events of other owners would come back with an empty `properties` field. The model does not capture this.
- Timers (`setTimeout`) are not modelled. Only the sequence of wait durations is returned.
- Focus handling and `scrollToBottom` in the chat pane are left out, as are console logging, React rendering, JSX and CSS class strings. Only the visibility decisions are modelled.
- Local time is taken to be UTC. `toLocaleString`, `Intl.DateTimeFormat` and `toISOString` are not modelled, and timestamps are counted in milliseconds from midnight of 1 January 1970.
- App.FindRoute: the percent-decoding of the path and the route ranking of React Router are not modelled. No two registered paths match the same path, so the first match is the ranked match.
- Text.ParseFloat reads an optional sign, digits and one decimal point. Exponents, `Infinity` and leading whitespace are not modelled, and `NaN` is `None`.
- IEEE-754 rounding of the divisions and products is not modelled. Arithmetic is exact over the reals.
- Constants.FormatCurrency rounds to whole cents, halves away from zero. Locale digit grouping is not modelled. A negative amount that rounds to zero cents is shown as 0.00, where the locale formatting shows -0.00.
- The `useAuth` hook is not part of this model. The signed-in user is an input to `useRBAC` and to the components.
- Rbac.LoadPermissions requires that no attempt finds the profile row missing. When the row is missing and there is no error, the source's loop neither breaks nor counts down, so it re-reads forever. Rbac.Classify shows that such a read makes no progress.
- Errors from the notification inserts after a message is sent are ignored, as the source ignores them.
- SignUp takes every `signOut()` to succeed, because the source does not look at its reply.
- MentionList hands the selected profile to its `onSelect` callback unchanged. The callback is MessageModal.Chat.MentionSelect.
- Analytics.Performance states only that each row keeps the property's id and name, with `rating || 0`. Its revenue and occupancy figures are stated by Analytics.LoadAnalytics and Analytics.PropertyOccupancyUnclamped.
- Text.LowerChar: folds only the ASCII letters A to Z, where `toLowerCase()` folds every letter with a lower-case form ('Ç' stays 'Ç' here and becomes 'ç' in the source). Unicode case mapping is not modelled.
- MentionList.MatchingExactly: "ignoring case" is Text.LowerChar's ASCII-only folding; `toLowerCase` also lowers letters outside ASCII, which the model does not, because it has no Unicode case tables.
- Leads.VisibleExactly: the search ignores case only through Text.LowerChar's ASCII-only folding (through Text.MatchesSearch); names, e-mails or phones with non-ASCII capitals can match in the page but not in the model.
- Transactions.VisibleExactly: the description search ignores case only through Text.LowerChar's ASCII-only folding (through Text.MatchesSearch); descriptions with non-ASCII capitals can match in the page but not in the model.
- Listings.ShownOrder: the search ignores case only through Text.LowerChar's ASCII-only folding (through Text.MatchesSearch); names or addresses with non-ASCII capitals can match in the page but not in the model.
- PropertyList.VisibleExactly: the search ignores case only through Text.LowerChar's ASCII-only folding (through Text.MatchesSearch); names or addresses with non-ASCII capitals can match in the page but not in the model.
- Accounting.MonthWindow: is built on the corrected month end, Accounting.EndOfMonth, not on the code as written (see Findings). Accounting.EndOfMonthAsWritten and Accounting.EndOfMonthAsWrittenOverruns model the written code.
- Accounting.MonthWindowIsMonth: states the corrected window. Under the code as written, on a day the following month does not have (31 January, say), the window runs on to the end of the following month.
- Accounting.LoadFinancialData: totals the rows of the corrected window, so it states what the page evidently means rather than what it computes late in a month.
- MessageModal.Chat.MentionSelect: applies the corrected splice, MessageModal.SpliceMention, not the written one (see Findings). MessageModal.SpliceMentionAsWritten and MessageModal.SpliceAsWrittenDuplicates model the written code.
- App, Sidebar, Header and RoleSelector each call `useRBAC()` and so each hold a hook instance of their own. The model gives them one shared Rbac.AccessView, except at the header's first render, where the header's own instance is still loading.
- App.Shell: the unsubscribe that the effect returns for unmounting (`src/App.tsx` lines 58-60) is not modelled; the shell is never torn down.
- Supabase.RetryRequest: the retry count is always an argument. The default of 3 for a missing argument is not modelled.
- Chart geometry, static pages and the form-only components (login, password reset, help, lead and owner dialogs, the listing manager) are not part of this model.

## Findings

| source | as written | input that shows it | evidently intended | confidence | as-written member | corrected member |
|---|---|---|---|---|---|---|
| src/components/Accounting.tsx:37-40 | the month's end is built with `setMonth(getMonth() + 1)` on today's date and then `setDate(0)`. The first call keeps the day of the month, so a day past the next month's length overflows into the month after | today 31 January 2025: the end becomes 28 February 2025, and February's rows count as the current month | the last day of the current month (31 January 2025) | not executed | Accounting.EndOfMonthAsWritten, Accounting.EndOfMonthAsWrittenOverruns | Accounting.EndOfMonth, Accounting.EndOfMonthIsLastDay |
| src/components/MessageModal.tsx:120-124 | the selected mention replaces the text from the message's LAST `@` up to the cursor. The pop-up was opened from the last `@` before the cursor | message `@a b@c`, cursor 2, mention `ann@x.io`: the result is `@a b@ann@x.io  b@c` | `@ann@x.io  b@c` | not executed | MessageModal.SpliceMentionAsWritten, MessageModal.SpliceAsWrittenDuplicates | MessageModal.SpliceMention, MessageModal.SpliceReplacesWindow |
