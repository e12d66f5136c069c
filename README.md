# Medical appointment scheduler: a Dafny model of its core

The medical-appointment-scheduler is an HR tool. Staff keep departments and
employees, book company-doctor appointments for employees, and get a reminder
date for each employee's next appointment. The backend is Django with Django
REST Framework; the front end is Angular. This project models the parts of
that system that hold logic, and proves properties about them:

- **Reminder bookkeeping** (`store.dfy`, module `Store`). The database is a
  class with three tables: departments, employees and appointments. Its
  constraints hold throughout: unique department names, unique personnel
  numbers, `PROTECT` on an employee's department, and `CASCADE` from an
  employee to its appointments. Its operations are what the employee and
  appointment serializers do on create and update. Creating an employee
  stores the entry date as the next reminder. Creating an appointment
  recomputes the next reminder as the latest appointment date plus the
  employee's interval in months, then copies the department's interval onto
  the employee. Updating an appointment recomputes the reminder without
  touching the interval or the note.
- **Calendar arithmetic** (`dates.dfy`, module `Dates`). Gregorian dates,
  their order, and `date + monthdelta(n)` with the day clamped to the end of
  a shorter month.
- **Date text codec** (`date_text.dfy`, module `DateText`). The API prints
  dates as `dd.mm.yyyy` and accepts `dd.mm.yyyy` or `yyyy-mm-dd`. The model
  follows `strftime`/`strptime`: one-digit day and month fields and a
  space-padded day are accepted, year `0000` and days a month does not have
  are refused. Required and nullable date fields are modelled too.
- **Accounts** (`accounts.dfy`, module `Accounts`). The account manager's
  `create_user` and `create_superuser`, the account's text forms, the unique
  email and username, and the admin forms' `clean_password2`,
  `clean_password` and `save`.
- **Access decisions** (`access.dfy`, module `Access`). Covers the two object
  permissions, the account endpoints' choice of permissions by HTTP verb,
  the login view's answers, the 404 of the cover-letter employee lookup, and
  the 500 of an empty filled template.
- **Test helpers** (`testing_utils.dfy`, module `TestingUtils`).
  `dict_to_list` and `list_to_dict` over insertion-ordered dictionaries,
  including Python's unpacking errors, and the module-level employee-id
  counter, which holds a number or a UUID string.
- **Appointments calendar** (`calendar_view.dfy`, module `CalendarView`). The
  Angular component's displayed year and its query window, the loop that
  sorts a year's appointments into twelve month columns (with JavaScript's
  `Number.parseInt`), and the employee label lookup.
- `text.dfy` holds `Option`/`Result` (module `Wrappers`) and the string
  helpers the others share (module `Text`: Python's `str.split` on one
  character, and `" ".join`).

Some facts about the code that a reader might expect to be otherwise:

- A new employee's `reminder_interval` defaults to 24. It is not taken from
  its department (backend/badbe/polls/models.py:89). The department's
  interval reaches the employee only when an appointment is created for it.
- `next_reminder` is not always the latest appointment date plus the
  interval, for four reasons:
  - Creating an employee sets the reminder to the entry date.
  - Creating an appointment measures with the interval *before* copying the
    department's interval.
  - Deleting an appointment recomputes nothing.
  - Moving an appointment to another employee does not recompute the
    employee it left.

  `Store.Store.DeleteAppointment` and `Store.Store.UpdateAppointment` state
  exactly what is and is not recomputed.
- The department serializer exposes only `id`, `name` and `employee_set`
  (backend/badbe/polls/serializers.py:113-115). So through the REST API a
  department's interval is always the default 24. `Store.Store.CreateDepartment`
  still takes an optional interval, and `Store.Store.SetDepartmentInterval`
  stands for an edit made outside the API.
- The calendar asks for `String(anio) + '-01-01'`. For a year below 1000
  that is not a four-digit `%Y` field, so the backend refuses the filter
  (`CalendarView.QueryForShortYear`).

## Model

| member | source | states |
|---|---|---|
| Text.Split | backend/badbe/polls/test/testing_utils.py:148 | `str.split` on one character gives one more piece than there are separators, and no piece contains the separator |
| Text.JoinSplit | backend/badbe/polls/test/testing_utils.py:148 | joining the pieces of a split with the separator gives back the original text |
| Text.SplitNoSeparator | backend/badbe/polls/test/testing_utils.py:148 | text without the separator is a single piece |
| Text.SplitAfterPiece | backend/badbe/polls/test/testing_utils.py:148 | a separator-free piece followed by the separator splits off as the first piece, and the rest splits on its own |
| Text.JoinWithSpace | backend/badbe/polls/models.py:92 | `" ".join([a, b])` is the first word, one space, then the second word |
| Text.JoinWithSpaceSplits | backend/badbe/polls/models.py:222-223 | when the first word has no space, both words can be read back out of the joined text |
| Dates.DaysInMonth | backend/badbe/polls/serializers.py:34-35 | every month has 28 to 31 days; 29 exactly for February of a leap year; 30 exactly for months 4, 6, 9 and 11; 31 exactly for months 1, 3, 5, 7, 8, 10 and 12 |
| Dates.AddMonths | backend/badbe/polls/serializers.py:77-78 | `date + monthdelta(n)` is a real date exactly n months later, with the same day, or the last day of the target month when that month is shorter |
| Dates.AddZeroMonths | backend/badbe/polls/serializers.py:77-78 | adding zero months returns the same date |
| Dates.AddMonthsMonotone | backend/badbe/polls/serializers.py:77-78 | adding the same months to a later appointment never gives an earlier reminder |
| Dates.ClampExamples | backend/badbe/polls/serializers.py:77-78 | 31 January plus one month is 29 February in a leap year; plus 13 months it is 28 February; 31 March minus one month is 28 February |
| Dates.AddMonthsNotAdditive | backend/badbe/polls/serializers.py:77-78 | because of the clamp, adding one month twice differs from adding two months at once |
| DateText.TwoDigits | backend/badbe/polls/serializers.py:35 | `%d` and `%m` output: exactly two digits whose value is the number |
| DateText.FourDigits | backend/badbe/polls/serializers.py:35 | `%Y` output: exactly four digits whose value is the year |
| DateText.TwoDigitsExact | backend/badbe/polls/serializers.py:35 | any two digits are the zero-padded `%d`/`%m` text of the number they write |
| DateText.FourDigitsExact | backend/badbe/polls/serializers.py:35 | any four digits are the zero-padded `%Y` text of the number they write |
| DateText.DayField | backend/badbe/polls/serializers.py:35 | a `%d` field is read exactly when it is a day from 1 to 31 written with two digits, or a day below ten written with one digit, alone or after a space; the value read is that day |
| DateText.MonthField | backend/badbe/polls/serializers.py:35 | a `%m` field is read exactly when it is a month from 1 to 12 written with two digits, or a month below ten written with one digit; the value read is that month |
| DateText.YearField | backend/badbe/polls/serializers.py:35 | a `%Y` field is read exactly when it is four digits, and the value read is the number they write, from 0 to 9999 |
| DateText.MakeDate | backend/badbe/polls/serializers.py:35 | a date is built exactly when the day exists in that month and the year lies in 1 to 9999 |
| DateText.Parse | backend/badbe/polls/serializers.py:34-41 | every date read from either input format is a real date in Python's year range; which texts are read, and as which date, is stated by DateText.ParseExactly |
| DateText.Format | backend/badbe/polls/serializers.py:34-35 | the output is ten characters: two digits writing the day, a dot, two digits writing the month, a dot, and four digits writing the year |
| DateText.IsoText | backend/badbe/polls/serializers.py:35 | `yyyy-mm-dd` is ten characters: four digits writing the year, a dash, two digits writing the month, a dash, and two digits writing the day |
| DateText.FormatParseRoundTrip | backend/badbe/polls/serializers.py:34-41 | every printed date reads back as the same date |
| DateText.IsoParseRoundTrip | backend/badbe/polls/serializers.py:35 | every date written as `yyyy-mm-dd` reads as that date |
| DateText.IsoTextReads | backend/badbe/polls/serializers.py:35 | the `%Y-%m-%d` format on its own reads every `yyyy-mm-dd` text as its date |
| DateText.ParseFourDigitShortYear | backend/badbe/polls/serializers.py:35 | a year below 1000 written with four digits is accepted: `01.01.0999` is 1 January 999 |
| DateText.ParseOneDigitFields | backend/badbe/polls/serializers.py:35 | one-digit day and month fields are accepted |
| DateText.ParseSpacePaddedDay | backend/badbe/polls/serializers.py:35 | a day padded with a space instead of a zero is accepted |
| DateText.ParseRefusesMissingDay | backend/badbe/polls/serializers.py:35 | a day the month does not have (such as 29.02 of a common year) is refused |
| DateText.DayFieldHasNoSeparator | backend/badbe/polls/serializers.py:35 | an accepted `%d` field holds neither `.` nor `-` |
| DateText.MonthFieldHasNoSeparator | backend/badbe/polls/serializers.py:35 | an accepted `%m` field holds neither `.` nor `-` |
| DateText.YearFieldHasNoSeparator | backend/badbe/polls/serializers.py:35 | an accepted `%Y` field holds neither `.` nor `-` |
| DateText.DottedLayoutParses | backend/badbe/polls/serializers.py:34-41 | day, month and year fields that read as a real date, joined with dots, are read as that date |
| DateText.IsoLayoutParses | backend/badbe/polls/serializers.py:34-41 | year, month and day fields that read as a real date, joined with dashes, are read as that date, although the dotted format is tried first |
| DateText.ParsedHasLayout | backend/badbe/polls/serializers.py:34-41 | every text that is read is laid out in one of the two formats, with fields that read as the parts of the date |
| DateText.ParseExactly | backend/badbe/polls/serializers.py:34-41 | a text is read as a date exactly when the date is real and in Python's range and the text writes it as `%d.%m.%Y` or `%Y-%m-%d`, each field in a spelling its directive accepts; every other text is "Date has wrong format" |
| DateText.ParseRefusesYearZero | backend/badbe/polls/serializers.py:35 | year `0000` fits the year field but is refused as a date |
| DateText.RequiredDate | backend/badbe/polls/serializers.py:34-37 | `date_of_birth`, `date_of_entry` and an appointment's `date`: a missing value and null are errors; text is accepted exactly when it parses, as the parsed date |
| DateText.OptionalDate | backend/badbe/polls/serializers.py:38-41 | `date_of_exit` and `next_reminder`: missing and null give no date; text is accepted exactly when it parses |
| Store.GenderFromText | backend/badbe/polls/models.py:51-59 | exactly the three stored choices "männlich", "weiblich" and "divers" are accepted, each as its own gender |
| Store.GenderRoundTrip | backend/badbe/polls/models.py:51-55 | the stored text of each gender is read back as that gender |
| Store.EmployeeText | backend/badbe/polls/models.py:91-92 | an employee's text is its first name, one space, then its last name |
| Store.EmployeeInputError | backend/badbe/polls/models.py:56-63 | a create request is accepted exactly when its names and personnel number are non-blank and at most 255 long, its gender is a choice, its personnel number is unused, and its department exists |
| Store.NewEmployee | backend/badbe/polls/serializers.py:52-56 | the stored employee keeps every requested field: names, gender, personnel number, department and the three dates; its `next_reminder` is its own entry date whatever the request said; wants_reminder, active, interval and notes are the requested values, or true, true, 24 and empty notes when missing |
| Store.MaxDate | backend/badbe/polls/serializers.py:77 | a non-empty set of dates has a latest date |
| Store.LatestIsMaxDate | backend/badbe/polls/serializers.py:77 | whichever same-day appointment `latest('date')` returns, its date is the maximum |
| Store.DatesAfterInsert | backend/badbe/polls/serializers.py:75-77 | a new appointment adds its date to its own employee's dates and changes no other employee's dates |
| Store.LatestAfterInsert | backend/badbe/polls/serializers.py:75-77 | after a new appointment the latest date is the later of the new date and the previous latest |
| Store.ReminderUpdateKeepsTables | backend/badbe/polls/serializers.py:89-92 | rewriting an employee's reminder fields keeps the uniqueness and reference constraints |
| Store.AppointmentWriteKeepsTables | backend/badbe/polls/serializers.py:75 | storing an appointment of an existing employee on a real date keeps the constraints |
| Store.WithoutEmployee | backend/badbe/polls/models.py:108 | the surviving appointments are exactly those of other employees, unchanged |
| Store.CascadeKeepsTables | backend/badbe/polls/models.py:108 | deleting an employee together with its appointments keeps the constraints |
| Store.Store.constructor | backend/badbe/polls/models.py:23-112 | an empty database satisfies the constraints |
| Store.Store.CreateDepartment | backend/badbe/polls/models.py:31-37 | a blank, too long or already used name is refused and nothing changes; otherwise exactly one new department is stored, with interval 24 unless one is given |
| Store.Store.SetDepartmentInterval | backend/badbe/polls/models.py:36-37 | only that department's interval changes; no employee is touched |
| Store.Store.DeleteDepartment | backend/badbe/polls/models.py:86-87 | a department still referenced by an employee is not deleted (`PROTECT`); otherwise only that department is removed |
| Store.Store.CreateEmployee | backend/badbe/polls/serializers.py:52-56 | the first validation error refuses the request and changes nothing; otherwise exactly the new employee is added, with `next_reminder` set to its entry date |
| Store.Store.DeleteEmployee | backend/badbe/polls/models.py:108 | removes the employee and exactly its appointments (`CASCADE`), nothing else |
| Store.Store.LatestDate | backend/badbe/polls/serializers.py:77 | the latest of the employee's appointment dates, and none exactly when it has no appointment |
| Store.Store.RecomputeReminder | backend/badbe/polls/serializers.py:77-79 | the employee's reminder becomes its latest appointment date plus its current interval; the department's interval is copied afterwards only when asked; an out-of-range reminder changes nothing |
| Store.Store.ReplaceEmployee | backend/badbe/polls/serializers.py:80 | saving an employee with the same personnel number and department keeps the constraints and changes only that row |
| Store.Store.CreateAppointment | backend/badbe/polls/serializers.py:74-81 | the appointment is stored; the employee's reminder is its latest date, the new one included, plus the interval it had before the call; then its interval becomes the department's; an unknown employee is refused and nothing changes |
| Store.Store.UpdateAppointment | backend/badbe/polls/serializers.py:84-93 | only date and employee change, when given, and never the note; the current employee's reminder is recomputed with its interval unchanged; no other employee, including the one the appointment left, is touched |
| Store.Store.ReplaceAppointment | backend/badbe/polls/serializers.py:86-88 | saving an appointment keeps the constraints, changes only that row, and its date is among its employee's dates |
| Store.Store.DeleteAppointment | backend/badbe/polls/views.py:122-131 | removes only that appointment and recomputes no reminder |
| Accounts.PasswordFrom | backend/badbe/polls/models.py:162 | `set_password(None)` leaves an unusable password; any text becomes the password |
| Accounts.CreateUserError | backend/badbe/polls/models.py:143-153 | the request is accepted exactly when email, first name, last name and username are all non-empty; otherwise the first missing one in that order is the error |
| Accounts.NewAccount | backend/badbe/polls/models.py:155-162 | a plain account is active and neither staff nor superuser, and keeps the given names, email and password |
| Accounts.AccountText | backend/badbe/polls/models.py:219-220 | an account's text form is its email address |
| Accounts.FullName | backend/badbe/polls/models.py:222-223 | the full name is the first name, one space, then the last name |
| Accounts.FullNameParts | backend/badbe/polls/models.py:222-226 | the full name starts with the short name and ends with the last name; for a first name without spaces, splitting on spaces gives the short name first |
| Accounts.ShortName | backend/badbe/polls/models.py:225-226 | the short name is the first name |
| Accounts.AccountTextIdentifies | backend/badbe/polls/models.py:198-199 | because emails are unique, two stored accounts have the same text exactly when they are the same account |
| Accounts.CleanPassword2 | backend/badbe/polls/admin.py:21-28 | accepted exactly when both entries are non-empty and equal, giving the second entry; otherwise "Passwords don't match" |
| Accounts.CleanPassword2Symmetric | backend/badbe/polls/admin.py:26 | swapping the two entries changes neither the verdict nor the result |
| Accounts.CleanPassword | backend/badbe/polls/admin.py:50-54 | the initial stored password, whatever was submitted; a missing initial entry is a key error |
| Accounts.AccountTable.constructor | backend/badbe/polls/models.py:198-201 | an empty table has unique emails and usernames |
| Accounts.AccountTable.Insert | backend/badbe/polls/models.py:198-201 | saving is refused exactly when the email or the username is already used; otherwise exactly one new account is stored |
| Accounts.AccountTable.CreateUser | backend/badbe/polls/models.py:135-164 | the first missing field refuses the request and nothing is stored; otherwise the plain account is saved unless its email or username is taken |
| Accounts.AccountTable.CreateSuperuser | backend/badbe/polls/models.py:166-177 | as `create_user`, and the stored account is also staff and superuser, and active |
| Accounts.AccountTable.SaveCreationForm | backend/badbe/polls/admin.py:30-36 | the account's password becomes `password1`; it is stored only when `commit` is set, otherwise nothing changes |
| Access.OwnerOrReadOnly | backend/badbe/polls/permissions.py:11-18 | GET, HEAD and OPTIONS are always granted; any other method is granted exactly when the object's owner is the requesting user |
| Access.AccountOwner | backend/badbe/polls/permissions.py:25-28 | granted exactly when a user is present and the account is that user; never without a user |
| Access.AccountPermissions | backend/badbe/polls/views.py:144-149 | safe methods and POST allow any caller; every other method needs authentication and account ownership |
| Access.AccountAccess | backend/badbe/polls/views.py:144-149 | reading and creating accounts is open to all; changing or deleting an account is allowed exactly to that account's own user |
| Access.AnonymousCannotWrite | backend/badbe/polls/views.py:149 | neither the anonymous user nor a request without a user may change an account |
| Access.Login | backend/badbe/polls/views.py:171-195 | unknown credentials get 401 "Username/password combination invalid."; a disabled account gets 401 "This account has been disabled."; the session is logged in, with a 200 answer carrying the account, exactly for an active account |
| Access.LookupOr404 | backend/badbe/polls/views.py:210-214 | a stored id gives its employee; any other id gives 404 |
| Access.FilledTemplateReply | backend/badbe/polls/views.py:88-96 | a non-empty filled template is returned with its name; an empty one gives 500 "HTML could not be generated" |
| TestingUtils.Lookup | backend/badbe/polls/test/testing_utils.py:146-150 | a key has a value exactly when some entry has that key |
| TestingUtils.Put | backend/badbe/polls/test/testing_utils.py:149 | `d[key] = value` appends a new key at the end, and for an existing key replaces its value in place |
| TestingUtils.PutKeepsDistinct | backend/badbe/polls/test/testing_utils.py:149 | storing a value keeps the keys distinct |
| TestingUtils.LookupAfterPut | backend/badbe/polls/test/testing_utils.py:149 | after `d[key] = value` the key maps to the value, and every other key keeps what it had |
| TestingUtils.Items | backend/badbe/polls/test/testing_utils.py:132-139 | one `key=value` item per entry, in the dictionary's order |
| TestingUtils.DictToList | backend/badbe/polls/test/testing_utils.py:132-139 | the loop's list is exactly the items of the dictionary, in order |
| TestingUtils.SplitPair | backend/badbe/polls/test/testing_utils.py:148 | unpacking succeeds exactly when the item holds one `=`; with none it is "not enough values", with more "too many values" |
| TestingUtils.SplitItem | backend/badbe/polls/test/testing_utils.py:138-148 | an item printed from an `=`-free key and value unpacks back into them |
| TestingUtils.InsertItems | backend/badbe/polls/test/testing_utils.py:146-150 | the dictionary built from the items has distinct keys |
| TestingUtils.ListToDict | backend/badbe/polls/test/testing_utils.py:142-150 | the loop yields exactly the dictionary the items describe, or the first unpacking error |
| TestingUtils.InsertItemsFails | backend/badbe/polls/test/testing_utils.py:148 | `list_to_dict` fails exactly when some item has no `=` or more than one |
| TestingUtils.InsertItemsAppend | backend/badbe/polls/test/testing_utils.py:147-149 | reading `a + b` is reading `a`, then continuing with `b` |
| TestingUtils.LastItemWins | backend/badbe/polls/test/testing_utils.py:149 | a repeated key takes the value of its last item, and other keys are unaffected |
| TestingUtils.DictListRoundTrip | backend/badbe/polls/test/testing_utils.py:132-150 | `list_to_dict(dict_to_list(d)) == d`, order included, when no key or value holds `=` |
| TestingUtils.EmployeeIdCounter.constructor | backend/badbe/polls/test/testing_utils.py:16 | the counter starts at the number 0 |
| TestingUtils.EmployeeIdCounter.NextIncremental | backend/badbe/polls/test/testing_utils.py:81-87 | a stored number is increased by one, stored and returned; a stored UUID string raises `TypeError` and stays |
| TestingUtils.EmployeeIdCounter.NextUuid4 | backend/badbe/polls/test/testing_utils.py:90-96 | the UUID text overwrites the counter and is returned |
| TestingUtils.CountFromStart | backend/badbe/polls/test/testing_utils.py:81-87 | a fresh counter hands out 1, 2, 3 |
| TestingUtils.IncrementAfterUuid | backend/badbe/polls/test/testing_utils.py:81-96 | once a UUID has been handed out, the incremental helper fails |
| CalendarView.NaturalText | frontend/src/app/components/appointments/appointments.component.ts:61-62 | `String(n)` of a non-negative number is digits whose value is n, with no leading zero (it starts with `0` exactly for 0), one digit exactly when n is below 10 |
| CalendarView.NumberText | frontend/src/app/components/appointments/appointments.component.ts:61-62 | a negative number is written with a minus sign before its digits |
| CalendarView.NaturalTextOfFourDigitYear | frontend/src/app/components/appointments/appointments.component.ts:61-62 | years 1000 to 9999 are written exactly as the backend's `%Y` writes them |
| CalendarView.NaturalTextOfShortYear | frontend/src/app/components/appointments/appointments.component.ts:61-62 | years below 1000 are written with fewer than four digits |
| CalendarView.QueryFor | frontend/src/app/components/appointments/appointments.component.ts:58-63 | both window ends carry the same year text and end in `-01-01` and `-12-31`; for a non-negative year that text is the year's digits, for a negative one a minus sign and the digits of its absolute value |
| CalendarView.QueryForYear | frontend/src/app/components/appointments/appointments.component.ts:58-63 | for a four-digit year the window reads as 1 January and 31 December of that year, and a date lies in it exactly when it is in that year |
| CalendarView.QueryForShortYear | frontend/src/app/components/appointments/appointments.component.ts:61 | for a year below 1000 the backend cannot read the window's start |
| CalendarView.TrimStart | frontend/src/app/components/appointments/appointments.component.ts:73 | `parseInt` drops the longest prefix of white space: everything dropped is white space and what is left does not start with white space |
| CalendarView.LeadingDigits | frontend/src/app/components/appointments/appointments.component.ts:73 | the digits `parseInt` reads are all digits and stop at the first non-digit |
| CalendarView.ReadSigned | frontend/src/app/components/appointments/appointments.component.ts:73 | after the white space, a number is read exactly when a digit follows, directly or after one sign, and a negative one only after a minus sign |
| CalendarView.ParseInt | frontend/src/app/components/appointments/appointments.component.ts:73 | `Number.parseInt(text, 10)` reads a number exactly when, after leading white space, a digit follows, directly or after one sign; a negative result needs a minus sign |
| CalendarView.ParseIntOfDigits | frontend/src/app/components/appointments/appointments.component.ts:73 | `parseInt` of a digit string is its decimal value |
| CalendarView.TrimStartAfterSpace | frontend/src/app/components/appointments/appointments.component.ts:73 | any run of white space before a character that is not white space is dropped, and only it |
| CalendarView.ParseIntAfterSpace | frontend/src/app/components/appointments/appointments.component.ts:73 | white space before the number changes nothing that `parseInt` reads |
| CalendarView.ReadAfterSign | frontend/src/app/components/appointments/appointments.component.ts:73 | `+` followed by digits reads as their value and `-` followed by digits as its negation, up to the first non-digit |
| CalendarView.ParseIntNegative | frontend/src/app/components/appointments/appointments.component.ts:73 | white space, `-` and digits read as the negated value of the digits |
| CalendarView.ParseIntNonNegative | frontend/src/app/components/appointments/appointments.component.ts:73 | white space and digits, with or without `+`, read as the value of the digits |
| CalendarView.ParseIntSigned | frontend/src/app/components/appointments/appointments.component.ts:73 | after any white space, digits with no sign or `+` read as their value and with `-` as its negation, up to the first non-digit |
| CalendarView.ParseIntStopsAtNonDigit | frontend/src/app/components/appointments/appointments.component.ts:73 | `parseInt` ignores whatever follows the first non-digit |
| CalendarView.MonthColumn | frontend/src/app/components/appointments/appointments.component.ts:73-74 | an appointment's column is a month index from 0 to 11 |
| CalendarView.MonthColumnOfFormat | frontend/src/app/components/appointments/appointments.component.ts:73-74 | a date printed by the backend goes into the column of its month, month − 1 |
| CalendarView.Column | frontend/src/app/components/appointments/appointments.component.ts:72-75 | a column never holds more entries than were fetched |
| CalendarView.ColumnMembers | frontend/src/app/components/appointments/appointments.component.ts:72-75 | column b holds exactly the fetched appointments whose month column is b |
| CalendarView.Columns | frontend/src/app/components/appointments/appointments.component.ts:68-75 | there are exactly 12 columns, and column b holds the appointments of month b + 1 in fetch order |
| CalendarView.Placed | frontend/src/app/components/appointments/appointments.component.ts:72-75 | how many appointments are laid out before the first one without a month column throws |
| CalendarView.ColumnsStep | frontend/src/app/components/appointments/appointments.component.ts:74 | one more appointment goes to the end of its own column, and no other column changes |
| CalendarView.ColumnsSizeSum | frontend/src/app/components/appointments/appointments.component.ts:72-75 | when every appointment has a month column, the column sizes add up to the number fetched |
| CalendarView.RefreshPlacesAll | frontend/src/app/components/appointments/appointments.component.ts:68-75 | after a complete refresh every fetched appointment is in exactly its month's column, and the sizes add up to the number fetched |
| CalendarView.NameLabel | frontend/src/app/components/appointments/appointments.component.ts:87 | the label is "| ", the last name, ", ", then the first name |
| CalendarView.FirstWithId | frontend/src/app/components/appointments/appointments.component.ts:81 | `find` returns the first employee with that id, and nothing exactly when none has it |
| CalendarView.AppointmentsComponent.constructor | frontend/src/app/components/appointments/appointments.component.ts:25-47 | the component shows the given year, twelve empty columns and no employee list |
| CalendarView.AppointmentsComponent.Inc | frontend/src/app/components/appointments/appointments.component.ts:49-52 | the year goes up by exactly one, and the next year's window is queried |
| CalendarView.AppointmentsComponent.Dec | frontend/src/app/components/appointments/appointments.component.ts:53-56 | the year goes down by exactly one, and the previous year's window is queried |
| CalendarView.AppointmentsComponent.OnFetched | frontend/src/app/components/appointments/appointments.component.ts:64-76 | the employee list is stored and the columns are exactly those of the appointments laid out before the first one that throws; the refresh completes exactly when none throws |
| CalendarView.AppointmentsComponent.EmployeeNameById | frontend/src/app/components/appointments/appointments.component.ts:80-88 | the label of the first employee with that id; none (where `getEmployeeNameById` throws a `TypeError`) exactly when no list has arrived or no employee has that id |

## Left out

- Password hashing, `normalize_email`, `authenticate`, `login`, `logout` and `update_session_auth_hash` are foreign services. A password is kept as the raw text it was set from. The email is stored as given. `Access.Login` takes what `authenticate` found as a parameter and returns whether the session was logged in.
- Access.Login: the request body is read with `json.loads` and `data.get` (backend/badbe/polls/views.py:172-175). A body that is not JSON, or JSON that is not an object, raises there, before `authenticate` is called, and the server answers 500. The model starts from the email and password already read and leaves that error path out.
- Access.Login: the disabled-account branch is modelled as written. With Django's default authentication backend, `authenticate` already returns nothing for an inactive account, so that branch is not reached there. That backend is not part of this model.
- `AccountManager.create_user` passes extra keyword arguments through to the model. The model has none. The 255-character limit on names is not checked there, because `create_user` does not call field validation.
- The Django REST Framework collects every field error of a request. `Store.EmployeeInputError` reports the first one, in field order. The model does not trim whitespace from character fields.
- DateText.Parse: `strptime` also accepts non-ASCII Unicode decimal digits in `%d`, `%m` and `%Y`. The model accepts ASCII digits only.
- DateText.Format: `%Y` is modelled zero-padded to four digits. Whether `strftime` pads years below 1000 depends on the C library, and several print them with fewer digits. Such years do reach the API: `strptime` reads `01.01.0999` as the year 999, and the model stores it. Where `%Y` is not padded, that date is written as `01.01.999`, which `%Y` does not read back, so DateText.FormatParseRoundTrip holds only for a padding C library or for the years 1000 to 9999.
- `AppointmentSerializer.update` also copies a submitted `id` onto the instance. The `id` field is read-only, so the value is always the instance's own. The model leaves that line out.
- Store.Store.CreateAppointment: when the reminder falls outside Python's years 1 to 9999, `monthdelta` raises an overflow error after the appointment is saved. The model keeps the appointment, leaves the employee as it was, and returns `ReminderOutOfRange`. The HTTP answer to that error is not modelled.
- `Dates.AddMonths` is the assumed behaviour of the external `monthdelta` library: the day is clamped to the length of the target month. The library itself is not part of this model.
- The ORM queries, viewsets, routing and filter sets (the `min_date`/`max_date` filter is reduced to the date order in `CalendarView.QueryForYear`) are left out. So are the employee and department viewsets' default update and list operations.
- `AccountViewSet.create` (backend/badbe/polls/views.py:151-160) is left out as request handling around `Accounts.AccountTable.CreateUser`. It validates the request body with `AccountSerializer`; invalid data makes `run_validation` raise, and the framework answers 400 with the field errors. Valid data is passed to `create_user`, and the answer is 201 carrying the validated data. The serializer's field checks (lengths, email syntax, uniqueness) are not modelled.
- `AccountSerializer`, `DepartmentSerializer` and `TemplateSerializer` are plain field mappings and are left out. So are `Department.__str__` and the `Template` model.
- Template filling and PDF rendering, reading and writing the cover-letter template file, and the clock read for the letter date are left out. `Access.FilledTemplateReply` takes the filled text as a parameter. A missing employee or template in `FilledTemplateViewSet.get` raises `DoesNotExist`, which the framework answers with 500; this is not modelled.
- The calendar's year comes from the clock. It is a constructor parameter of `CalendarView.AppointmentsComponent`. The HTTP requests are not modelled: `Inc`/`Dec` return the query they send, and `OnFetched` is the callback's work on the answers.
- CalendarView.AppointmentsComponent.EmployeeNameById: the refresh of the employee list it starts when no employee is found arrives asynchronously. It is not modelled, because `getEmployeeNameById` throws before the answer could be used.
- CalendarView.AppointmentsComponent.OnFetched: the columns are a sequence value reassigned on each push, not an array shared with the template. Aliasing between the view and the component is not captured.
- The UUID in `next_employee_id_uuid4` is random. It is a parameter of `TestingUtils.EmployeeIdCounter.NextUuid4`.
- The other Angular components and services, `home.component.ts` date handling, the Selenium and API tests, the mock data and `mocker.py` are left out.
- Concurrent appointment writes for the same employee are left out. The model runs one request at a time.
