# School management core, modelled in Dafny

This project models the rules of a school-management web application: an
Express/Mongoose REST server and a React client. Each collection is held as an
in-memory sequence or map. Each request handler is a function from the
collection before to the reply and the collection after. Where the server
updates documents in place, a class performs the same request on its fields
and is proved to agree with that function. The modelled parts are:

- library circulation: issue, return, fine quote and fine correction on the server, and the student's books page;
- the catalog filter and the book-request form;
- grading: the result document's pre-save grade, the grade badges and pass tests, and the results analysis;
- attendance statistics: the attendance page, the monthly report and the dashboard figures;
- registry tables: class groups with their cascades, modules and their courses, and complaints;
- string validators: student, module and course identifiers, e-mail and contact patterns, the password policy and strength meter, and the profile form;
- small client state transformers: notification toggles, table row selection, and course and sport filters;
- the error-to-HTTP mapping of the error middleware.

Shared modules: `Wrappers` (an `Option` type), `Text` (ASCII whitespace,
trimming, ASCII lower-casing, substring search, decimal numerals), `Seqs` (filter,
count, sum, minimum and maximum, first-seen de-duplication, a stable sort on a
real key, the `some` test, removal of one position), `JsObject` (the order in
which `Object.entries` lists a plain object's keys, after section 10.1.11.1 of
ECMA-262), `Patterns` (the hand-written regular expressions), `Choices` (the
"all" drop-downs) and `Http` (status codes and replies).

Times are integers in milliseconds and are passed in as parameters. Scores and
percentages are exact `real`s. JavaScript's `x || d` is written out: a missing
value, and also `0` or `""`, takes the default.

A return does not keep a book's available copies within its total.
`returnBook` refuses only a record whose status is already "returned"
(server/src/controllers/libraryController.js:69), so a record closed as
"overdue" can be returned a second time, and it adds one to `availableCopies`
with no upper bound (server/src/controllers/libraryController.js:93-97).
`Circulation.ReturnOfOverdueRecordBreaksStock` and
`Circulation.SecondReturnOfOverdueLoanExceedsTotal` show the consequence.

## Model

| member | source | states |
|---|---|---|
| LibraryLedger.ParseStatus | server/src/models/LibraryTransaction.js:18-22 | the status enum accepts exactly "borrowed", "returned" and "overdue" |
| LibraryLedger.ParseStatusName | server/src/models/LibraryTransaction.js:18-22 | every status's stored name parses back to that status |
| LibraryLedger.Validate | server/src/models/LibraryTransaction.js:5-23 | a record is accepted iff bookID, bookTitle, borrowedBy and borrowDate are present, a given status is one of the enum and the fine is not negative; the accepted record keeps the given bookID, bookTitle, borrowedBy, borrowDate and returnDate, with status defaulting to "borrowed" and fine to 0 |
| Circulation.DaysElapsed | server/src/controllers/libraryController.js:74-78 | whole days elapsed, rounded down: `d * 86400000 <= to - from < (d + 1) * 86400000` |
| Circulation.OverdueDays | server/src/controllers/libraryController.js:178-189 | days past the 14-day loan period, never negative |
| Circulation.Fine | server/src/controllers/libraryController.js:81-84 | the fine is zero within 14 days and one dollar per day after; never negative |
| Circulation.FineMonotone | server/src/controllers/libraryController.js:81-84 | a longer loan never costs less |
| Circulation.FineText | server/src/controllers/libraryController.js:185-189 | "$N" for a positive fine, from which N reads back, and "No fine" otherwise |
| Circulation.Issue | server/src/controllers/libraryController.js:8-55 | 400 when either id is empty or no copy is available, 404 for an unknown book, and 500 when the book has no title (the new record fails the ledger schema on save), each leaving the store unchanged; otherwise one well-formed "borrowed" record is appended and that book alone loses one copy |
| Circulation.Return | server/src/controllers/libraryController.js:60-108 | 404 for an unknown record and 400 for one already "returned"; otherwise the return date and fine are stored, the status is "overdue" iff the fine is positive, and the book, if it still exists, gains one copy with no cap |
| Circulation.Quote | server/src/controllers/libraryController.js:163-195 | read-only: 404 for an unknown record, otherwise the days elapsed, the overdue days (equal to the fine) and the fine text |
| Circulation.QuoteIgnoresStatus | server/src/controllers/libraryController.js:163-190 | a closed record is quoted exactly like an open one |
| Circulation.SetFine | server/src/controllers/libraryController.js:200-226 | a missing or negative fine is refused with 400 before the lookup; 404 for an unknown record; otherwise only the fine changes |
| Circulation.SelectNewestFirst | server/src/controllers/libraryController.js:120-123 | exactly the matching records, newest borrow date first |
| Circulation.ListTransactions | server/src/controllers/libraryController.js:113-133 | exactly the records of the optional status (the same multiset as the filtered ledger), newest first; 404 iff there are none |
| Circulation.StudentTransactions | server/src/controllers/libraryController.js:139-157 | exactly one student's records (the same multiset as the filtered ledger), newest first; 404 iff there are none |
| Circulation.ConservedStockWithinTotal | server/src/controllers/libraryController.js:27-44 | while available plus open loans equals the total, no book shows more copies than it owns |
| Circulation.IssueKeepsStockNonNegative | server/src/controllers/libraryController.js:27-44 | issuing never drives a count below zero |
| Circulation.ReturnKeepsStockNonNegative | server/src/controllers/libraryController.js:93-97 | returning never drives a count below zero |
| Circulation.IssueKeepsLedgerWellFormed | server/src/models/LibraryTransaction.js:3-25 | an issue stores only records the ledger schema accepts |
| Circulation.ReturnKeepsLedgerWellFormed | server/src/models/LibraryTransaction.js:3-25 | a return keeps every ledger record within the schema |
| Circulation.SetFineKeepsLedgerWellFormed | server/src/models/LibraryTransaction.js:3-25 | a fine correction keeps every ledger record within the schema |
| Circulation.IssueConservesStock | server/src/controllers/libraryController.js:32-44 | issuing moves one copy from the shelf to an open loan |
| Circulation.ReturnOfOpenLoanConservesStock | server/src/controllers/libraryController.js:87-97 | returning a "borrowed" record moves its copy back to the shelf |
| Circulation.ReturnOfOverdueRecordBreaksStock | server/src/controllers/libraryController.js:69-97 | returning a record already closed as "overdue" adds a copy that was never out |
| Circulation.SecondReturnOfOverdueLoanExceedsTotal | server/src/controllers/libraryController.js:69-97 | a concrete late loan returned twice leaves more copies available than the book owns |
| Circulation.LoanWithinPeriodRestoresShelf | server/src/controllers/libraryController.js:8-108 | issue of a titled book then return within 14 days: no fine, status "returned", and the shelf as before |
| Circulation.LibraryDesk.constructor | server/src/controllers/libraryController.js:8-226 | a desk over the given books with an empty ledger |
| Circulation.LibraryDesk.IssueBook | server/src/controllers/libraryController.js:8-55 | updates the fields in place exactly as `Issue` says |
| Circulation.LibraryDesk.ReturnBook | server/src/controllers/libraryController.js:60-108 | updates the fields in place exactly as `Return` says |
| Circulation.LibraryDesk.UpdateFine | server/src/controllers/libraryController.js:200-226 | updates the fields in place exactly as `SetFine` says |
| Circulation.LibraryDesk.CalculateFine | server/src/controllers/libraryController.js:163-195 | read-only; answers exactly as `Quote` says |
| MyBooks.DaysRemaining | client/src/features/student/library/MyBooks.jsx:73-82 | no due date gives none; otherwise whole days to the due date, rounded up |
| MyBooks.PastDueIsNegative | client/src/features/student/library/MyBooks.jsx:73-82 | the days remaining are negative iff the due date is at least a full day behind `now` |
| MyBooks.PageFine | client/src/features/student/library/MyBooks.jsx:84-89 | zero with no due date or while days remain; otherwise the days overdue times the rate (5 by default) |
| MyBooks.PageFinePositiveIffOverdue | client/src/features/student/library/MyBooks.jsx:84-89 | at the default rate the fine is never negative, and positive iff the book is overdue |
| MyBooks.DueDateBadge | client/src/features/student/library/MyBooks.jsx:91-114 | the five cases: no due date, overdue by the absolute days, due today, one to three days (warning), more (success) |
| MyBooks.OverdueBooks | client/src/features/student/library/MyBooks.jsx:125-127 | exactly the books with negative days remaining, in page order; a book with no due date is never among them |
| MyBooks.TotalFines | client/src/features/student/library/MyBooks.jsx:121-124 | never negative; zero iff no book is overdue; at least the default rate times the number of overdue books |
| MyBooks.TotalFinesSingle | client/src/features/student/library/MyBooks.jsx:121-124 | the total of one book is that book's fine at the default rate |
| MyBooks.TotalFinesAppend | client/src/features/student/library/MyBooks.jsx:121-124 | the total over two lists joined is the sum of their totals, so the total is the sum of the books' fines |
| MyBooks.FinesOwedIffOverdueBooks | client/src/features/student/library/MyBooks.jsx:121-127 | fines are owed iff the overdue list is non-empty |
| BookCatalog.FilterBooks | client/src/features/student/library/BookCatalog.jsx:58-82 | an order-preserving subsequence; a book is kept iff it passes the text filter (skipped for a blank term) and the category filter (skipped for "all") |
| BookCatalog.NoFilterKeepsCatalog | client/src/features/student/library/BookCatalog.jsx:58-82 | a blank term with "all" shows the catalog whole |
| BookCatalog.AvailabilityBadge | client/src/features/student/library/BookCatalog.jsx:93-98 | "Available" above five copies, "N left" for one to five, "Not Available" otherwise |
| BookCatalog.AvailabilityBadgeMonotone | client/src/features/student/library/BookCatalog.jsx:93-98 | more copies never show a worse badge |
| BookCatalog.Categories | client/src/features/student/library/BookCatalog.jsx:100-104 | "all", then every non-empty category of the catalog exactly once, and nothing else |
| Choices.PresentValues | client/src/features/student/library/BookCatalog.jsx:100-104 | exactly the present, non-empty values, in the order they appear |
| Choices.WithAll | client/src/features/student/results/MyResults.jsx:145-148 | "all" first, then every non-empty value exactly once, ordered by first appearance |
| BookRequest.Submit | client/src/features/student/library/BookRequest.jsx:38-91 | the first blank required field (title, author, reason) stops the submit with its message and sends nothing; otherwise the form is sent: when the service accepts it the form is reset to empty, when it refuses the form is kept and the server's message, or "Failed to submit book request", is shown |
| BookRequest.FailureMessage | client/src/features/student/library/BookRequest.jsx:84-86 | the server's message when it sent a non-empty one, otherwise "Failed to submit book request"; never empty |
| BookRequest.OptionalFieldsNotValidated | client/src/features/student/library/BookRequest.jsx:41-56 | publisher, isbn, edition and category never change the verdict |
| BookRequest.ResetFormIsRejected | client/src/features/student/library/BookRequest.jsx:42-45 | the empty form left after a submit would itself be refused for its title |
| BookRequest.RefusedFormResubmits | client/src/features/student/library/BookRequest.jsx:83-88 | after a refusal the kept form is sent again unchanged on the next submit |
| ResultGrade.ParseGrade | server/src/models/Result.js:26-29 | the enum accepts exactly the eight grade names |
| ResultGrade.GradeFor | server/src/models/Result.js:40-47 | the grade is the highest band whose floor the percentage reaches (90, 85, 80, 75, 70, 60, 50) |
| ResultGrade.AboveRaisesFloor | server/src/models/Result.js:40-47 | each grade's floor is below that of the grade above it |
| ResultGrade.GradeMonotone | server/src/models/Result.js:40-47 | a higher percentage never earns a lower grade |
| ResultGrade.GradeInEnum | server/src/models/Result.js:26-29 | every computed grade is one the enum accepts |
| ResultGrade.Percentage | server/src/models/Result.js:37 | finite iff the total is not zero, and then percentage × total = marks × 100; over a zero total, infinity for positive marks, minus infinity for negative ones and NaN for zero |
| ResultGrade.GradeOfRatio | server/src/models/Result.js:40-47 | a finite percentage is graded by its band, infinity "A+", minus infinity and NaN "F" (every comparison with NaN is false) |
| ResultGrade.ZeroTotalGrade | server/src/models/Result.js:24-47 | a zero total, which the schema allows, grades positive marks "A+" and zero marks "F" |
| ResultGrade.PercentageBounds | server/src/models/Result.js:37 | marks within a positive total give a finite percentage in 0..100 |
| ResultGrade.ResultDoc.constructor | server/src/models/Result.js:5-35 | a document with the caller's fields, including any percentage and grade |
| ResultGrade.ResultDoc.PreSave | server/src/models/Result.js:36-49 | for any total, zero included, overwrites the percentage with the JavaScript quotient and the grade with that quotient's grade, and nothing else |
| ResultGrade.Insert | server/src/models/Result.js:52 | an insert is refused iff the (student, exam) pair is already present |
| ResultGrade.InsertKeepsUnique | server/src/models/Result.js:52 | inserts keep at most one result per student and exam |
| MyResults.PassMark | client/src/features/student/results/MyResults.jsx:108 | a missing or zero pass mark counts as 50 |
| MyResults.FilterResults | client/src/features/student/results/MyResults.jsx:76-87 | "all" keeps every result; otherwise the results of that exam type, ignoring case, in order |
| MyResults.ExamTypes | client/src/features/student/results/MyResults.jsx:145-148 | "all", then every non-empty exam type of the results exactly once, and nothing else |
| MyResults.Scores | client/src/features/student/results/MyResults.jsx:102-104 | each result's score, a missing one as 0 |
| MyResults.CalculateStats | client/src/features/student/results/MyResults.jsx:89-119 | all zero for no data; otherwise the average is the mean of the scores, passed (score at least the pass mark) plus failed equals total, and highest and lowest are scores that bound every score and the average |
| MyResults.GradeBadgeFor | client/src/features/student/results/MyResults.jsx:122-132 | A+ from 90, A from 80, B from 70, C from 60, then D from the pass mark (50 by default), else F |
| MyResults.HighPassMarkStillGivesC | client/src/features/student/results/MyResults.jsx:128-131 | a score of 60 or more gets at least C whatever the pass mark |
| MyResults.ZeroPassMarkBadgeDisagreesWithPassTest | client/src/features/student/results/MyResults.jsx:108-131 | a pass mark of 0 reads as 0 in the badge but as 50 in the pass test |
| ExamResultDetail.FindResult | client/src/features/student/results/ExamResultDetail.jsx:41-47 | the first result with the id, or "Result not found" iff none has it |
| ExamResultDetail.GetGrade | client/src/features/student/results/ExamResultDetail.jsx:66-76 | from 60 never D or F; below 60, D iff the score reaches the pass mark (50 by default) |
| ExamResultDetail.GetGradeAgreesWithGradeBadge | client/src/features/student/results/ExamResultDetail.jsx:66-76 | the detail page grades exactly as the results list does |
| ExamResultDetail.GradeAndPassCanDisagree | client/src/features/student/results/ExamResultDetail.jsx:114-115 | pass mark 75 with score 70 gives grade B but not passed |
| ExamResultDetail.BelowSixtyGradeMatchesPass | client/src/features/student/results/ExamResultDetail.jsx:66-76 | for a score under 60 with a pass mark set, a grade of D or better means passed |
| ExamResultDetail.BarWidth | client/src/features/student/results/ExamResultDetail.jsx:255 | the bar is the score capped at 100 |
| ResultsAnalysis.OverallOf | client/src/features/student/results/ResultsAnalysis.jsx:77-85 | none for no results; otherwise the average is the mean of the scores, highest and lowest are scores that bound every score, and the pass rate is the percentage passed, within 0..100 |
| ResultsAnalysis.Group | client/src/features/student/results/ResultsAnalysis.jsx:88-95 | the keys have no duplicates and each key has a non-empty score list |
| ResultsAnalysis.GroupHoldsScoresOfKey | client/src/features/student/results/ResultsAnalysis.jsx:88-95 | each group holds exactly the scores of the results with that key, in input order |
| ResultsAnalysis.GroupKeysInFirstSeenOrder | client/src/features/student/results/ResultsAnalysis.jsx:88-95 | the dictionary's keys, in the order each was first added (its insertion order, before `Object.entries` lists them) |
| ResultsAnalysis.GroupCountsSumToTotal | client/src/features/student/results/ResultsAnalysis.jsx:88-106 | the group sizes add up to the number of results |
| ResultsAnalysis.BuildGroups | client/src/features/student/results/ResultsAnalysis.jsx:88-95 | the in-place `forEach` pushes build exactly the grouping `Group` describes |
| ResultsAnalysis.Summarize | client/src/features/student/results/ResultsAnalysis.jsx:98-106 | one course entry: its size, the mean of its scores, and a highest and lowest taken from its scores that bound all of them |
| ResultsAnalysis.Summaries | client/src/features/student/results/ResultsAnalysis.jsx:97-106 | one entry per key, in key order, each with that key's count, the mean of its scores and their maximum and minimum |
| ResultsAnalysis.SummariesCount | client/src/features/student/results/ResultsAnalysis.jsx:97-106 | the entries' counts add up to the scores filed |
| ResultsAnalysis.CountSumPermutation | client/src/features/student/results/ResultsAnalysis.jsx:107 | sorting the entries does not change the total count |
| ResultsAnalysis.ByCourse | client/src/features/student/results/ResultsAnalysis.jsx:88-107 | one entry per course, highest average first; each counts that course's results and gives the mean, maximum and minimum of exactly their scores; counts sum to the number of results |
| ResultsAnalysis.CourseEntriesDescribe | client/src/features/student/results/ResultsAnalysis.jsx:88-107 | however the course entries are reordered, there is one per course and each describes its course's scores |
| ResultsAnalysis.TypeSummaries | client/src/features/student/results/ResultsAnalysis.jsx:119-125 | one entry per key, in key order, with its count and the mean of its scores, between its lowest and highest score |
| ResultsAnalysis.ByExamType | client/src/features/student/results/ResultsAnalysis.jsx:109-125 | one entry per exam type ("Other" when missing), in the order `Object.entries` lists the dictionary (`JsObject.EntriesOrder` of the insertion order); each counts that type's results and averages exactly their scores, the average lying between their lowest and highest |
| JsObject.IndicesThenOthers | client/src/features/student/results/ResultsAnalysis.jsx:119 | the same keys as a multiset; every array-index key comes before every other key, the index keys ascending; the other keys keep their insertion order |
| JsObject.EntriesSameKeys | client/src/features/student/results/ResultsAnalysis.jsx:119 | `Object.entries` lists exactly the keys that were added |
| JsObject.InsertionOrderWithoutIndices | client/src/features/student/results/ResultsAnalysis.jsx:119 | with no array-index key, the entries come in insertion order |
| JsObject.NumericKeyListedFirst | client/src/features/student/results/ResultsAnalysis.jsx:119 | the exam type "2", added after "Final", is listed before it |
| ResultsAnalysis.Points | client/src/features/student/results/ResultsAnalysis.jsx:131-138 | one point per result, in order |
| ResultsAnalysis.DatedOldestFirst | client/src/features/student/results/ResultsAnalysis.jsx:128-130 | exactly the dated results, each as often as in the data (same multiset), oldest first |
| ResultsAnalysis.PointFromData | client/src/features/student/results/ResultsAnalysis.jsx:128-138 | every dated result contributes its point |
| ResultsAnalysis.Trend | client/src/features/student/results/ResultsAnalysis.jsx:128-138 | the points of the dated results, oldest first, each result as often as in the data |
| ResultsAnalysis.AnalyzeResults | client/src/features/student/results/ResultsAnalysis.jsx:65-152 | no results leave every part empty; otherwise each part is the overall summary, course entries, exam-type entries and trend above |
| ResultsAnalysis.PerformanceLevel | client/src/features/student/results/ResultsAnalysis.jsx:159-167 | Excellent from 90, Good from 75, Average from 60, else Needs Improvement |
| MyAttendance.StatusCountsWithinTotal | client/src/features/student/attendance/MyAttendance.jsx:75-78 | the three exact-spelling counts add up to at most the total |
| MyAttendance.CalculateStats | client/src/features/student/attendance/MyAttendance.jsx:74-88 | counts by exact status; the percentage is (present + late)/total × 100, 0 for no records, within 0..100 |
| MyAttendance.CapitalisedStatusNotCounted | client/src/features/student/attendance/MyAttendance.jsx:75-78 | a record stored as "Present" counts only toward the total, giving 0%, yet shows the "Present" badge |
| MyAttendance.StatusBadge | client/src/features/student/attendance/MyAttendance.jsx:90-121 | present, absent or late in any case; anything else, or nothing, is "Unknown" |
| MyAttendance.StatusBadgeIgnoresCase | client/src/features/student/attendance/MyAttendance.jsx:90-121 | statuses differing only in case get the same badge |
| MyAttendance.CountedPresentShowsPresent | client/src/features/student/attendance/MyAttendance.jsx:76-121 | a record counted present is shown with the "Present" badge |
| AttendanceReport.ToFixed1 | client/src/features/student/attendance/AttendanceReport.jsx:110 | the percentage rounded to one decimal, within half a tenth of it |
| AttendanceReport.ToFixed1Monotone | client/src/features/student/attendance/AttendanceReport.jsx:110 | rounding never reverses the order of two percentages |
| AttendanceReport.MonthOf | client/src/features/student/attendance/AttendanceReport.jsx:90-111 | one month's counts by exact status and its rounded percentage; monthNumber is the index plus one |
| AttendanceReport.MonthOfBounds | client/src/features/student/attendance/AttendanceReport.jsx:90-111 | a month's present, absent and late counts stay within its total, and its percentage lies between 0 and 100 |
| AttendanceReport.ActiveMonths | client/src/features/student/attendance/AttendanceReport.jsx:90-113 | the months with records, in calendar order |
| AttendanceReport.ActiveMonthsCover | client/src/features/student/attendance/AttendanceReport.jsx:113 | every month with records is listed |
| AttendanceReport.MonthsOf | client/src/features/student/attendance/AttendanceReport.jsx:90-111 | the summary of each listed month |
| AttendanceReport.CalculateMonthlyStats | client/src/features/student/attendance/AttendanceReport.jsx:74-116 | the non-empty months in calendar order, each summarising its records |
| AttendanceReport.MonthlyTotalsFrom | client/src/features/student/attendance/AttendanceReport.jsx:90-113 | the listed months' totals add up to the records of those months |
| AttendanceReport.MonthlyPresentFrom | client/src/features/student/attendance/AttendanceReport.jsx:90-113 | the listed months' present counts add up to the present records of those months |
| AttendanceReport.MonthlyTotalsMatchOverall | client/src/features/student/attendance/AttendanceReport.jsx:90-147 | the monthly totals and present counts add up to the page-wide ones |
| AttendanceReport.PercentageBadge | client/src/features/student/attendance/AttendanceReport.jsx:130-135 | success from 90, info from 75, warning from 60, else error |
| AttendanceReport.PercentageColor | client/src/features/student/attendance/AttendanceReport.jsx:123-128 | the text colour of the same four bands |
| AttendanceReport.ColorFollowsBadge | client/src/features/student/attendance/AttendanceReport.jsx:123-135 | colour and badge always name the same band |
| AttendanceReport.BestIndex | client/src/features/student/attendance/AttendanceReport.jsx:413-418 | the first month with the maximal percentage |
| StudentDashboard.LoadDashboard | client/src/pages/StudentDashboard.jsx:29-37 | without a stored student id or token the page shows the not-logged-in error; otherwise it requests that student's dashboard |
| StudentDashboard.Round | client/src/pages/StudentDashboard.jsx:98-111 | the nearest integer, halves up |
| StudentDashboard.RoundWithin | client/src/pages/StudentDashboard.jsx:98-111 | rounding stays within integer bounds |
| StudentDashboard.AttendancePercentage | client/src/pages/StudentDashboard.jsx:96-103 | round(100 × present / records), 0 for no records, within 0..100 |
| StudentDashboard.RoundedAttendanceCanHideAbsence | client/src/pages/StudentDashboard.jsx:96-103 | 199 present out of 200 already shows 100 |
| StudentDashboard.ScoreSumBetween | client/src/pages/StudentDashboard.jsx:106-112 | scores within bounds sum to within the scaled bounds |
| StudentDashboard.AverageScore | client/src/pages/StudentDashboard.jsx:106-112 | 0 for no results; undefined iff a score is missing; otherwise the rounded mean, within 0..100 when the scores are |
| StudentDashboard.BorrowedCount | client/src/pages/StudentDashboard.jsx:184 | at most the number of entries, and zero iff no status is exactly "borrowed" |
| StudentDashboard.BorrowedCountOfLedger | client/src/pages/StudentDashboard.jsx:184 | on the library ledger this is the number of open loans |
| ClassGroups.ValidationErrors | server/src/controllers/classGroupController.js:11-23 | a check's message is present iff it fails (grade 1..14, section A..E, school present), each at most once and in chain order; empty iff all pass |
| ClassGroups.GroupName | server/src/controllers/classGroupController.js:27 | the decimal grade followed by the section, e.g. "10A" |
| ClassGroups.Create | server/src/controllers/classGroupController.js:10-63 | 400 on validation failure or an existing (grade, section, school), changing nothing; otherwise a new group with 30 seats is appended |
| ClassGroups.CreateKeepsValid | server/src/models/ClassGroup.js:9-37 | creation keeps the domains and the unique (school, grade, section) index |
| ClassGroups.CreateTwiceRefused | server/src/controllers/classGroupController.js:30-40 | creating the same group again is refused and changes nothing |
| ClassGroups.GroupKeyOrder | server/src/controllers/classGroupController.js:80 | the combined key orders by grade, then section |
| ClassGroups.ListGroups | server/src/controllers/classGroupController.js:68-91 | exactly the school's groups (of one grade if given), as a multiset, by grade then section; 404 iff none |
| ClassGroups.FindGroup | server/src/controllers/classGroupController.js:98-103 | the position of the group with the id, or none iff absent |
| ClassGroups.GroupDetail | server/src/controllers/classGroupController.js:96-120 | 404 for an unknown group; otherwise its students and availableSeats = maxStudents − studentCount |
| ClassGroups.OverfullClassHasNegativeSeats | server/src/controllers/classGroupController.js:104-112 | an over-full class reports negative free seats |
| ClassGroups.Delete | server/src/controllers/classGroupController.js:173-196 | 404 for an unknown group; otherwise it is removed, its students deleted and its teachers unassigned, and nothing else changes |
| ClassGroups.DeleteCascades | server/src/controllers/classGroupController.js:175-186 | after deletion no student or teacher refers to the class, and other classes are untouched |
| ClassGroups.FilterKeepsUnique | server/src/models/ClassGroup.js:37 | removing groups keeps the unique index |
| ClassGroups.DeleteKeepsValid | server/src/models/ClassGroup.js:9-37 | deletion keeps the domains and the unique index |
| ClassGroups.DeleteAll | server/src/controllers/classGroupController.js:201-229 | 404 with no cascade when the school has no groups; otherwise its groups, students and courses are deleted and its teachers unassigned |
| ClassGroups.DeleteAllCount | server/src/controllers/classGroupController.js:203-219 | the groups removed and kept add up to the groups there were |
| ClassGroups.ClassDesk.constructor | server/src/controllers/classGroupController.js:10-229 | a desk over the given registry |
| ClassGroups.ClassDesk.CreateClassGroup | server/src/controllers/classGroupController.js:10-63 | updates the fields exactly as `Create` says |
| ClassGroups.ClassDesk.GetClassGroupDetail | server/src/controllers/classGroupController.js:96-120 | read-only; answers exactly as `GroupDetail` says |
| ClassGroups.ClassDesk.DeleteClassGroup | server/src/controllers/classGroupController.js:173-196 | updates the fields exactly as `Delete` says |
| ClassGroups.ClassDesk.DeleteClassGroups | server/src/controllers/classGroupController.js:201-229 | updates the fields exactly as `DeleteAll` says |
| Patterns.LeadingCount | server/src/models/Student.js:17-21 | the length of the longest prefix whose characters all pass the test |
| Patterns.LeadingCountUnique | server/src/models/Student.js:17-21 | that length is the only split point with a passing prefix and a failing next character |
| Patterns.LettersThenDigits | server/src/models/Module.js:9 | a string is lo..hi capitals followed by exactly n digits iff such a split exists |
| Patterns.ModuleIdExamples | server/src/models/Module.js:9 | "MOD101" is a module id; "MO101" and "MOD1011" are refused |
| Patterns.CourseIdExamples | server/src/models/Course.js:9 | "CS101" and "MATH101" are course ids; "C101" and "CS10" are refused |
| Patterns.PhoneOk | server/src/models/Student.js:26-30 | an optional "+" and then lo..hi digits |
| Patterns.HasChar | server/src/models/Student.js:17-21 | the character occurs iff some position holds it |
| Patterns.HasInnerDot | server/src/models/Student.js:17-21 | a "." that is neither the first nor the last character |
| Patterns.EmailOk | server/src/models/Student.js:17-21 | iff some "@" splits the address into a non-empty local part without spaces or "@" and a valid domain |
| Patterns.EmailHasOneAt | server/src/models/Student.js:17-21 | an accepted address has exactly one "@" |
| CourseModules.ModuleInvalidPaths | server/src/models/Module.js:5-28 | empty iff the module document is valid; each field's path is listed iff that field's constraint (pattern, required, `min`, grade range) fails |
| CourseModules.SchemaOkIffNothingViolated | server/src/models/Module.js:5-28 | a module document satisfies the schema iff none of its seven fields breaks its own constraint |
| CourseModules.NewCourse | server/src/models/Course.js:5-20 | a course is built iff its id pattern and required fields hold; its module list starts empty |
| CourseModules.PushModule | server/src/controllers/moduleController.js:54-56 | `$push`: the id appended to that course's list, other courses unchanged, no field but `modules` touched |
| CourseModules.PullModule | server/src/controllers/moduleController.js:154-156 | `$pull`: every occurrence of the id removed from that course's list, order kept, no field but `modules` touched |
| CourseModules.AddModule | server/src/controllers/moduleController.js:190-192 | `$addToSet`: the id appended only when absent, no field but `modules` touched |
| CourseModules.AddModuleIdempotent | server/src/controllers/moduleController.js:190-192 | adding the same id twice is adding it once |
| CourseModules.OnlyModuleListsKeepValid | server/src/models/Course.js:5-20 | changing nothing but module lists keeps every course valid and the `courseID`s unique |
| CourseModules.ValidationErrors | server/src/controllers/moduleController.js:9-22 | each of the six messages (moduleID, moduleName, description, credits, course, instructor) is listed iff its check fails, in the order of the checks; empty iff all pass |
| Seqs.FlagsInOrder | server/src/controllers/moduleController.js:9-22 | the collected messages keep the order of the checks (also used by the class-group and complaint chains) |
| Seqs.FlagsMembers | server/src/controllers/moduleController.js:9-22 | with distinct messages, a check's message is collected iff that check fails |
| CourseModules.NewModule | server/src/controllers/moduleController.js:41-50 | the document keeps the request's moduleID and course under the new id, and passes the schema iff the moduleID pattern and the grade range hold |
| CourseModules.Create | server/src/controllers/moduleController.js:8-66 | 400 with messages, 400 for a taken moduleID, 500 when the schema refuses, each changing nothing; otherwise the module is stored and pushed onto its course |
| CourseModules.CreateKeepsValid | server/src/models/Module.js:5-28 | creation keeps unique ids and moduleIDs, valid modules, and valid courses with unique courseIDs |
| CourseModules.CreateTwiceRefused | server/src/controllers/moduleController.js:36-39 | creating the same moduleID again is refused and changes nothing |
| CourseModules.CreateAppendsToCourse | server/src/controllers/moduleController.js:54-56 | a created module's id ends its course's list, even if already there |
| CourseModules.GetModules | server/src/controllers/moduleController.js:72-93 | the modules of the given course and grade, in stored order, each filter only when given; 404 iff none |
| CourseModules.GetModulesUnfiltered | server/src/controllers/moduleController.js:74-78 | with neither filter every module is listed |
| CourseModules.FindModule | server/src/controllers/moduleController.js:98-108 | the position of the first module with the id, or none iff absent |
| Seqs.FindBy | server/src/controllers/moduleController.js:98-108 | the position of the first element with the key, or none iff no element has it; the module, class-group and complaint lookups are this search on their ids |
| CourseModules.ApplyUpdate | server/src/controllers/moduleController.js:120-126 | only moduleName, description, credits and instructor change, each only when given |
| CourseModules.Update | server/src/controllers/moduleController.js:118-140 | 404 for an unknown module; otherwise that module alone is updated, without validation |
| CourseModules.UpdateKeepsValid | server/src/controllers/moduleController.js:120-126 | an update that respects the schema keeps the store valid |
| CourseModules.UpdateSkipsValidation | server/src/controllers/moduleController.js:120-126 | negative credits are stored, since the update runs no validators |
| Seqs.RemoveAt | server/src/controllers/moduleController.js:147 | the sequence without one position, order kept; deleteComplaint (server/src/controllers/complainController.js:130) removes a complaint the same way |
| CourseModules.Delete | server/src/controllers/moduleController.js:145-166 | 404 for an unknown module; otherwise it is removed and pulled from its course |
| CourseModules.DeleteRemoves | server/src/controllers/moduleController.js:147-156 | the deleted module is gone and its course no longer lists it |
| CourseModules.DeleteKeepsValid | server/src/models/Module.js:5-28 | deletion keeps the store valid, courses and their unique courseIDs included |
| CourseModules.Assign | server/src/controllers/moduleController.js:171-202 | 400 without a course id, 404 for an unknown module, 500 "Internal server error" iff the module with its new course breaks the schema, 200 iff it passes; on 200 the module's course is set and the id added once to the new course, otherwise nothing changes |
| CourseModules.AssignKeepsValid | server/src/models/Module.js:5-28 | assignment keeps the store valid, courses and their unique courseIDs included |
| CourseModules.AssignIdempotent | server/src/controllers/moduleController.js:176-192 | assigning the same module to the same course twice is assigning it once |
| CourseModules.AssignLeavesOldCourse | server/src/controllers/moduleController.js:176-192 | the old course still lists the module |
| CourseModules.MoveThenDeleteLeavesStaleId | server/src/controllers/moduleController.js:147-192 | moving a module and then deleting it leaves its id in the old course's list |
| CourseModules.ModuleDesk.constructor | server/src/controllers/moduleController.js:8-202 | a desk over the given store |
| CourseModules.ModuleDesk.Locate | server/src/controllers/moduleController.js:100 | a scan finds exactly `FindModule`'s position |
| CourseModules.ModuleDesk.CreateModule | server/src/controllers/moduleController.js:8-66 | updates the fields exactly as `Create` says |
| CourseModules.ModuleDesk.ListModules | server/src/controllers/moduleController.js:72-93 | read-only; answers exactly as `GetModules` says |
| CourseModules.ModuleDesk.UpdateModule | server/src/controllers/moduleController.js:118-140 | updates the fields exactly as `Update` says |
| CourseModules.ModuleDesk.DeleteModule | server/src/controllers/moduleController.js:145-166 | updates the fields exactly as `Delete` says |
| CourseModules.ModuleDesk.AssignModuleToCourse | server/src/controllers/moduleController.js:171-202 | updates the fields exactly as `Assign` says |
| StudentModel.ParseStatus | server/src/models/Student.js:42-46 | the status enum accepts exactly active, inactive and suspended |
| StudentModel.ParseGender | server/src/models/Student.js:64-68 | the gender enum accepts exactly male, female and other |
| StudentModel.NewStudent | server/src/models/Student.js:6-68 | a student is built iff every required field and pattern holds, keeping the given id, name, e-mail, password and contact; status defaults to active and gender to other |
| StudentModel.StudentIdShape | server/src/models/Student.js:6-11 | every stored id is "S" and seven to nine capitals or digits |
| StudentModel.ContactShape | server/src/models/Student.js:26-30 | every stored contact is ten to fifteen digits, with a leading "+" adding one character: 11 to 16 characters with "+", 10 to 15 without |
| StudentModel.StudentIdExamples | server/src/models/Student.js:6-11 | "S1234ABC" is accepted; "S123" and "T1234ABC" are refused |
| StudentModel.EmailAccepted | server/src/models/Student.js:17-21 | "ann@school.org" is accepted |
| StudentModel.EmailRejected | server/src/models/Student.js:17-21 | a domain without a dot, or a space in the local part, is refused |
| StudentModel.ContactExamples | server/src/models/Student.js:26-30 | "+919876543210" is accepted and "98765" refused |
| ChangePassword.ValidatePassword | client/src/features/student/profile/ChangePassword.jsx:46-69 | none iff all five checks hold; otherwise the message of the first failing one, in order |
| ChangePassword.Strength | client/src/features/student/profile/ChangePassword.jsx:149-158 | 0 for the empty string, at most 5, and 5 iff non-empty and meeting the policy |
| ChangePassword.PolicyIffFullStrength | client/src/features/student/profile/ChangePassword.jsx:46-69 | a non-empty password passes validation iff its strength is 5 |
| ChangePassword.StrengthGrowsWithAppend | client/src/features/student/profile/ChangePassword.jsx:149-158 | typing more characters never lowers the strength |
| ChangePassword.Level | client/src/features/student/profile/ChangePassword.jsx:159-164 | Weak up to 2, Fair at 3, Good at 4, Strong at 5 |
| ChangePassword.Test | client/src/features/student/profile/ChangePassword.jsx:150-156 | a scan finds a matching character iff one exists |
| ChangePassword.GetPasswordStrength | client/src/features/student/profile/ChangePassword.jsx:149-164 | the step-by-step counter computes exactly `Level` of the password |
| ChangePassword.HandleSubmit | client/src/features/student/profile/ChangePassword.jsx:75-107 | the six checks in order, the first failure stopping the submit: each message (current required, new required, confirm required, policy, mismatch, must differ) is shown iff the earlier checks pass and its own fails; otherwise current and new passwords are sent |
| ChangePassword.SentPasswordIsStrong | client/src/features/student/profile/ChangePassword.jsx:75-107 | whatever is sent meets the policy, matches its confirmation and differs from the current one |
| ChangePassword.MismatchReportedAfterPolicy | client/src/features/student/profile/ChangePassword.jsx:88-99 | when the confirmation differs, the mismatch is reported iff the new password meets the policy; a weak one is reported as weak first |
| ChangePassword.PolicyExample | client/src/features/student/profile/ChangePassword.jsx:46-69 | concrete passwords that pass and that fail |
| EditProfile.FormOf | client/src/features/student/profile/EditProfile.jsx:42-52 | each form field is the profile's, or "" when missing |
| EditProfile.Load | client/src/features/student/profile/EditProfile.jsx:41-52 | loading keeps the profile, fills the form and clears the error |
| EditProfile.Edit | client/src/features/student/profile/EditProfile.jsx:62-68 | editing changes only the form |
| EditProfile.Validate | client/src/features/student/profile/EditProfile.jsx:73-100 | none iff all checks pass; otherwise exactly the first failing check's message |
| EditProfile.EmailStartsVisible | client/src/features/student/profile/EditProfile.jsx:80-89 | an address the pattern accepts is never blank, so the blank check adds nothing to it |
| EditProfile.SurroundingSpaceRefused | client/src/features/student/profile/EditProfile.jsx:80-89 | a leading space is refused by the pattern although the blank check trims |
| EditProfile.HandleSubmit | client/src/features/student/profile/EditProfile.jsx:73-118 | an update is sent iff validation passes; otherwise the first error is shown |
| EditProfile.HandleReset | client/src/features/student/profile/EditProfile.jsx:121-136 | with a loaded profile the form is refilled from it, otherwise kept; the error is cleared |
| EditProfile.ResetUndoesEdits | client/src/features/student/profile/EditProfile.jsx:121-136 | after editing a loaded profile, reset returns to what loading showed |
| EditProfile.ResetIdempotent | client/src/features/student/profile/EditProfile.jsx:121-136 | resetting twice is resetting once |
| NotificationSettings.Set | client/src/features/student/profile/NotificationSettings.jsx:89-97 | replacing one category leaves the others |
| NotificationSettings.Toggle | client/src/features/student/profile/NotificationSettings.jsx:89-97 | exactly that flag is negated; every other flag and category is unchanged |
| NotificationSettings.ToggleTwiceRestores | client/src/features/student/profile/NotificationSettings.jsx:89-97 | toggling a present flag twice restores the settings |
| NotificationSettings.ToggleTwiceOnMissingFlag | client/src/features/student/profile/NotificationSettings.jsx:89-97 | a missing flag reads the same after two toggles but is then stored as off |
| NotificationSettings.MasterToggle | client/src/features/student/profile/NotificationSettings.jsx:99-108 | only the category's `enabled` flag is negated; its sub-flags stay |
| NotificationSettings.MasterIsToggleOfEnabled | client/src/features/student/profile/NotificationSettings.jsx:89-108 | the master switch is the single toggle on `enabled` |
| NotificationSettings.Merge | client/src/features/student/profile/NotificationSettings.jsx:71-76 | each category from the server when sent, otherwise kept |
| NotificationSettings.Load | client/src/features/student/profile/NotificationSettings.jsx:65-78 | the server's settings are remembered and merged only when they have a key |
| NotificationSettings.Reset | client/src/features/student/profile/NotificationSettings.jsx:131-143 | the loaded settings are merged again if there are any; the error is cleared |
| NotificationSettings.MergeEmpty | client/src/features/student/profile/NotificationSettings.jsx:69-78 | merging nothing changes nothing |
| NotificationSettings.MergeIdempotent | client/src/features/student/profile/NotificationSettings.jsx:131-143 | merging the same data twice is merging it once |
| NotificationSettings.ResetAfterEdits | client/src/features/student/profile/NotificationSettings.jsx:69-143 | after any edits, reset restores every category the server sent and keeps the edits to the others |
| NotificationSettings.ResetBeforeLoad | client/src/features/student/profile/NotificationSettings.jsx:131-143 | before loading, reset only clears the error |
| CourseEnrollment.IntToString | client/src/features/student/courses/CourseEnrollment.jsx:86 | the decimal numeral of an integer |
| CourseEnrollment.SignShown | client/src/features/student/courses/CourseEnrollment.jsx:86 | the numeral starts with "-" iff negative and is never "all" |
| CourseEnrollment.IntToStringInjective | client/src/features/student/courses/CourseEnrollment.jsx:86 | different grades have different numerals |
| CourseEnrollment.FilterCourses | client/src/features/student/courses/CourseEnrollment.jsx:69-91 | an order-preserving subsequence; a course is kept iff it passes the text filter (skipped when blank) and the grade filter (skipped for "all") |
| CourseEnrollment.GradeFilterIsExact | client/src/features/student/courses/CourseEnrollment.jsx:84-88 | choosing a grade keeps exactly the courses of that grade |
| Seqs.AnyHasKey | client/src/features/student/courses/CourseEnrollment.jsx:93-95 | true iff some enrolled course has the id; the join-sport page's `isJoined` (client/src/features/student/sports/JoinSport.jsx:84-86) is the same test on sports |
| CourseEnrollment.InsertGrade | client/src/features/student/courses/CourseEnrollment.jsx:125-127 | inserting into an increasing list keeps it increasing and adds exactly that grade |
| CourseEnrollment.AvailableGrades | client/src/features/student/courses/CourseEnrollment.jsx:125-127 | strictly increasing, no duplicates, and holding exactly the truthy grades |
| Seqs.LengthGap | client/src/features/student/courses/CourseEnrollment.jsx:214 | listed minus enrolled, negative iff more are enrolled than listed; the join-sport page's figure (client/src/features/student/sports/JoinSport.jsx:180) is the same on sports |
| CourseEnrollment.AvailableCanBeNegative | client/src/features/student/courses/CourseEnrollment.jsx:214 | an enrolled course no longer listed shows −1 |
| JoinSport.FilterSports | client/src/features/student/sports/JoinSport.jsx:66-82 | a blank term keeps every sport in order; otherwise exactly the matching sports, in order |
| JoinSport.FilterSportsIdempotent | client/src/features/student/sports/JoinSport.jsx:66-82 | searching again with the same term changes nothing |
| VirtualizedTable.RowSelect | client/src/components/common/VirtualizedTable.jsx:51-63 | nothing sent without a callback; otherwise the row's membership flips, every other row's is kept, and the order is kept; a removal drops every copy of the row and keeps every copy of the others |
| VirtualizedTable.RowSelectTwice | client/src/components/common/VirtualizedTable.jsx:55-60 | clicking a row twice gives back the same selected rows |
| VirtualizedTable.AllRows | client/src/components/common/VirtualizedTable.jsx:132 | every row index, in order |
| VirtualizedTable.SelectAll | client/src/components/common/VirtualizedTable.jsx:128-134 | cleared when the counts agree, otherwise every row |
| VirtualizedTable.RowSelectKeepsWellFormed | client/src/components/common/VirtualizedTable.jsx:55-60 | clicking rows keeps each row selected at most once |
| VirtualizedTable.SelectAllWellFormed | client/src/components/common/VirtualizedTable.jsx:128-134 | select-all names each row once |
| VirtualizedTable.HeaderCheckedIffAllSelected | client/src/components/common/VirtualizedTable.jsx:167 | for such a selection the header is checked iff the table has rows and all are selected |
| VirtualizedTable.DuplicateSelectionLooksComplete | client/src/components/common/VirtualizedTable.jsx:167 | a selection naming one row twice shows the header checked with a row unselected |
| Complaints.Find | server/src/controllers/complainController.js:67 | the position of the first complaint with the id, or none iff absent |
| Complaints.FindUnique | server/src/controllers/complainController.js:67 | with unique ids, each complaint is found at its own position |
| Complaints.ValidationErrors | server/src/controllers/complainController.js:8-15 | a message for a missing or empty complaint and for a missing or empty school, each at most once and in chain order; empty iff both are given |
| Complaints.Create | server/src/controllers/complainController.js:7-39 | 400 with the messages and nothing stored; otherwise 201 and a complaint from the requester, dated now, appended |
| Complaints.CreateKeepsValid | server/src/controllers/complainController.js:17-28 | creation with a fresh id keeps ids unique and required fields present |
| Complaints.ListBySchool | server/src/controllers/complainController.js:44-60 | exactly the school's complaints, newest first; 404 iff the school has none |
| Complaints.ListCountsSchool | server/src/controllers/complainController.js:46-49 | the listing holds as many complaints as the school has |
| Complaints.GetById | server/src/controllers/complainController.js:65-90 | 404 for an unknown id; 500 when the author's user document is gone, since the populated `user` is null; 403 unless the requester wrote it or is an admin; otherwise 200 with it |
| Complaints.CreateThenAuthorReads | server/src/controllers/complainController.js:7-90 | a submitted complaint is read back by its author exactly as stored |
| Complaints.ParseStatus | server/src/controllers/complainController.js:99 | exactly pending, in-review and resolved are accepted; a missing status is refused |
| Complaints.UpdateStatus | server/src/controllers/complainController.js:95-123 | 400 for a status outside the list, before the lookup; 404 for an unknown id; otherwise only that complaint's status changes |
| Complaints.UpdateStatusKeepsValid | server/src/controllers/complainController.js:105-109 | a status update keeps the collection valid |
| Complaints.UpdateThenAdminReads | server/src/controllers/complainController.js:95-123 | after an accepted update an administrator reads the new status |
| Complaints.Delete | server/src/controllers/complainController.js:128-144 | 404 for an unknown id; otherwise the complaint is removed |
| Complaints.DeleteKeepsValid | server/src/controllers/complainController.js:128-144 | deletion keeps the collection valid |
| Complaints.DeleteThenGone | server/src/controllers/complainController.js:128-144 | a deleted complaint can no longer be read, updated or deleted |
| Complaints.ComplaintDesk.constructor | server/src/controllers/complainController.js:7-144 | a desk over the given complaints |
| Complaints.ComplaintDesk.Locate | server/src/controllers/complainController.js:67 | a scan finds exactly `Find`'s position |
| Complaints.ComplaintDesk.Submit | server/src/controllers/complainController.js:7-39 | updates the field exactly as `Create` says |
| Complaints.ComplaintDesk.Collect | server/src/controllers/complainController.js:46 | a scan collects exactly the school's complaints in stored order |
| Complaints.ComplaintDesk.ListForSchool | server/src/controllers/complainController.js:44-60 | read-only; answers exactly as `ListBySchool` says |
| Complaints.ComplaintDesk.View | server/src/controllers/complainController.js:65-90 | read-only; answers exactly as `GetById` says |
| Complaints.ComplaintDesk.SetStatus | server/src/controllers/complainController.js:95-123 | updates the field exactly as `UpdateStatus` says |
| Complaints.ComplaintDesk.Remove | server/src/controllers/complainController.js:128-144 | updates the field exactly as `Delete` says |
| ErrorHandler.NewAppError | server/src/middlewares/errorHandler.js:4-11 | the message, status and errors as given, and marked operational |
| ErrorHandler.Raise | server/src/middlewares/errorHandler.js:4-11 | an application error reaches the handler under the name of `Error`, with its message, status and errors |
| ErrorHandler.DuplicateMessage | server/src/middlewares/errorHandler.js:40-44 | "<field> '<value>' already exists" for the first key |
| ErrorHandler.Finish | server/src/middlewares/errorHandler.js:61-69 | status is the error's own or 500, message its own or "Internal Server Error", success false, errors only when present |
| ErrorHandler.Classify | server/src/middlewares/errorHandler.js:18-70 | the handler throws iff a ValidationError has no `errors` or a code-11000 error has no `keyValue`; otherwise token errors give 401, cast errors, duplicate keys and validation errors give 400, with the later check winning, and anything else keeps its own status and message |
| ErrorHandler.Handle | server/src/middlewares/errorHandler.js:18-70 | the sequence of independent rewrites of the local error, stopping where the source throws, answers exactly as `Classify` says |
| ErrorHandler.MappedStatuses | server/src/middlewares/errorHandler.js:33-61 | a reply that is sent has status 400, 401, 500 or the error's own |
| ErrorHandler.AppErrorPassesThrough | server/src/middlewares/errorHandler.js:4-69 | an application error with a message and a status passes through unchanged |
| ErrorHandler.AppErrorDefaults | server/src/middlewares/errorHandler.js:61-62 | without a message or a status the defaults apply |
| ErrorHandler.LaterCheckWins | server/src/middlewares/errorHandler.js:33-44 | a validation error that also carries code 11000 is reported as a duplicate |
| ErrorHandler.MissingKeyValueThrows | server/src/middlewares/errorHandler.js:40-44 | a code-11000 error without `keyValue` makes the handler throw, whatever its name |
| ErrorHandler.RouteNotFound | server/src/middlewares/errorHandler.js:76-79 | a 404 application error naming the URL |
| ErrorHandler.UnknownRouteReply | server/src/middlewares/errorHandler.js:76-79 | an unknown route is answered 404 "Route not found: <url>" with no error list |

## Left out

- Database plumbing: connections, `populate`, projections and index builds. Collections are sequences or maps, and new document ids are parameters.
- ObjectId casting: ids are plain strings, so a malformed id is just an unknown id, not a cast failure.
- Concurrency: every request runs alone and to completion.
- The clock: `new Date()` is a millisecond parameter. Calendar months are pre-extracted indices, because `getMonth` depends on the time zone.
- Number formatting: `toFixed(2)` of averages and `parseFloat` are left out, and averages are exact. So are the attendance page's `percentage.toFixed(1)` (client/src/features/student/attendance/MyAttendance.jsx:86) and the results page's `passRate.toFixed(1)` (client/src/features/student/results/ResultsAnalysis.jsx:145): `MyAttendance` and `ResultsAnalysis` keep those percentages exact. Only the monthly report's `toFixed(1)` is modelled, as rounding to a tenth.
- Text.ToLower, BookCatalog.FilterBooks, CourseEnrollment.FilterCourses, JoinSport.FilterSports, MyResults.FilterResults, MyAttendance.StatusBadge: lower-casing maps only the ASCII capitals A–Z. JavaScript's `toLowerCase` also lowers other letters, so a search for "éc" finds a book titled "École" in the browser but not in the model.
- Regular expressions: the patterns are hand-written predicates. Whitespace is ASCII only; JavaScript's Unicode whitespace in `trim` and `\s` is not modelled.
- bcrypt hashing, JWT issue and verification, routes, Socket.IO and rendering: foreign libraries and I/O. The requester's id and role are parameters.
- The Book schema is not part of this model; a book's fields are those the library controller reads.
- Mongoose `strictQuery` and strict-mode stripping of unknown update paths. The complaint schema declares no `status`, so a real update would drop it; the model stores the status as the controller intends.
- A `null` score in the results statistics reads as 0, as `|| 0` gives. On the dashboard, which has no default, a missing score makes the average undefined (JavaScript's NaN).
- updateClassGroup and getClassGroupStudents: plain updates and listings with no rule beyond not-found.
- getModuleById: a lookup with a 404, which `CourseModules.FindModule` covers.
- The grade query parameter of getModules is taken already parsed.
- Non-integer module grades are not modelled.
- The profile's date of birth is taken as the day string the page derives; its ISO conversion is left out.
- NotificationSettings: the server's settings are assumed to be objects, and the save request and success messages are left out.
- The service calls, notifications and post-success form resets of the profile pages are left out.
- BookRequest.Submit: the request service's answer is the parameter `reply`; the success and error toasts, the `submitting` flag and the navigation back to the library 1.5 seconds after success are not modelled.
- handleEnroll and handleJoin: service calls followed by a refetch, with no rule of their own.
- The "percentage" maximum of the result schema is not enforced, as in the source.
- The development-only stack trace in the error reply is left out, and so is asyncHandler, which only forwards a rejected promise.
- ErrorHandler.Classify: when the handler itself throws, the reply comes from Express's built-in final handler; the model records only that it threw (`Threw`).
- Circulation.SetFine, Circulation.LibraryDesk.UpdateFine: fines are whole numbers. The source also stores a fractional fine such as 2.5, and a `null` fine, which passes its `fine === undefined || fine < 0` test (server/src/controllers/libraryController.js:204); the model can represent neither, and `None` stands for an absent fine only.
- ChangePassword.ValidatePassword, ChangePassword.Strength: lengths count characters, where JavaScript's `length` counts UTF-16 code units, so a password with characters outside the Basic Multilingual Plane is measured shorter than in the browser.
- ResultsAnalysis.ByCourse: the order of courses with equal averages, which the stable sort takes from `Object.entries`, is not promised; the entries are stated only to be ordered by average.
- ResultsAnalysis.Trend: a point's date is the stored timestamp; the page shows it as `toLocaleDateString("en-US", {month: "short", year: "numeric"})` (e.g. "Mar 2024"), a locale and time-zone formatting that is not modelled.
- ResultsAnalysis.Group, ResultsAnalysis.BuildGroups: a course name or exam type equal to a name inherited from `Object.prototype` ("constructor", "toString", "__proto__") is truthy at `courseMap[courseName]` or `typeMap[type]`, so the source calls `push` on a non-array and the page fails; the model treats every name as an ordinary key.
- CourseModules.ModuleDesk.Locate, Complaints.ComplaintDesk.Locate: the database's index lookup is modelled as a linear scan.
- Complaints.ListBySchool: MongoDB leaves the order of complaints with equal dates open; the model fixes it by a stable sort, and its contract states only the date order and the contents.
