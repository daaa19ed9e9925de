# Question-bank catalog, modelled in Dafny

The system is a Next.js application for revising university exam questions. Its data is
a four-level catalog: a **subject** holds **systems**, a system holds **marks sections**
(one per marks value, such as "5 Markers"), and a section holds **questions**. A question
records the years it was asked in, the number of those years (`repeatCount`), an
importance score computed from them, and a bookmark flag. **Folders** and uploaded
**files** hang off questions. One **statistics** row keeps the catalog's totals. The REST
route handlers create, update, delete and list each kind of row. Further handlers serve
the featured questions, seed a fixed catalog and a fixed question list, and export and
import a JSON backup. The dashboard page navigates the catalog and draws a marks
distribution from the statistics.

The model keeps the database in memory. The class `Store.Catalog` holds one map per
table, from row id to row, and a counter that hands out fresh ids. Each route handler is
a method over a `Catalog` that returns a `Response`, which is either `Ok` with the JSON
payload or an error with its status and message. The state each handler leaves is tied
to a function of the tables (`Tables`). Pure parts are functions with lemmas about
them: score computation, ordering and `take`, the backup's JSON tables, and the
dashboard's aggregation. The page's state lives in the class `Dashboard.Page`.

Module layout, one file each:

- `common` holds `Option` and `Response`.
- `text` covers trimming, defaults and lower-casing.
- `scoring` covers the importance score and number formatting.
- `ordering` covers `orderBy` with `take` over a table, and `findFirst`.
- `store` holds the rows, the catalog invariant, cascading deletes and the statistics refresh.
- One module per route: `subjects`, `systems`, `marks_sections`, `questions`, `files`
  (with `filetypes` for the file-type table), `folders`, `statistics`, `featured`,
  `seed`, `seed_questions` and `backup`.
- `dashboard` models the page.

## Model

| member | source | states |
|---|---|---|
| Subjects.Create | src/app/api/subjects/route.ts:69-117 | a blank or missing name gets 400 "Subject name is required"; a trimmed name another subject has gets 400 and nothing changes; otherwise a new subject with a fresh id is stored, with trimmed name, `description?.trim() \|\| null` and default colour `#3b82f6`, the statistics are refreshed and the catalog invariant holds |
| Subjects.Update | src/app/api/subjects/route.ts:120-179 | a missing id gets 400, an unknown id gets 404; a changed non-empty name that another subject has (after trimming) gets 400; a write that would duplicate a name fails as the unique index does; otherwise only that subject's row changes, each field `?? existing` and the name and description trimmed |
| Subjects.RenameCheckSuffices | src/app/api/subjects/route.ts:145-155 | a rename that passes the check gives no other subject's name |
| Subjects.Delete | src/app/api/subjects/route.ts:182-225 | a missing id gets 400, an unknown id gets 404; otherwise the subject and everything under it are removed (the cascade), the statistics are refreshed and the invariant holds; errors change nothing |
| Subjects.Preview | src/app/api/subjects/route.ts:30-46 | at most five questions are previewed |
| Subjects.PreviewMembers | src/app/api/subjects/route.ts:30-38 | the preview holds only the subject's questions, and all of them when it holds fewer than five |
| Subjects.PreviewOrdered | src/app/api/subjects/route.ts:34-37 | the preview lists each question once, ordered by score and then repeat count, both descending |
| Subjects.PreviewIsTop | src/app/api/subjects/route.ts:34-38 | a question of the subject left out of the preview ranks no higher than any question shown |
| Subjects.OrderSorted | src/app/api/subjects/route.ts:7-25 | the listing holds every subject exactly once, oldest first |
| Subjects.SummariesShape | src/app/api/subjects/route.ts:28-53 | one summary per subject id, in the same order, carrying the row and the preview |
| Subjects.SummariesCover | src/app/api/subjects/route.ts:28-53 | summaries over a list of every subject without repeats have one entry per subject, each carrying that subject's row and preview |
| Subjects.SummariesOrdered | src/app/api/subjects/route.ts:28-53 | summaries over a list ordered by age keep that order, none twice |
| Subjects.ListCovers | src/app/api/subjects/route.ts:5-58 | GET returns one entry per subject and every subject appears |
| Subjects.ListEntries | src/app/api/subjects/route.ts:5-58 | each GET entry carries its subject's row and the preview of its questions |
| Subjects.ListOrdered | src/app/api/subjects/route.ts:22-24 | GET lists the subjects oldest first, none twice |
| Systems.MaxOrder | src/app/api/systems/route.ts:139-142 | the `_max` aggregate is none exactly when the subject has no system, and otherwise is the order of one of its systems and at least the order of each |
| Systems.NextOrder | src/app/api/systems/route.ts:144 | an order given is kept; otherwise the new order is above every order in the subject, 0 for its first system, and one past an existing order |
| Systems.Create | src/app/api/systems/route.ts:92-173 | a blank name gets 400 "System name is required"; a missing subject id gets 400; an unknown subject gets 404; a trimmed name the subject already has gets 400; otherwise the trimmed system is stored with the next order and a fresh id, and the statistics are refreshed; errors change nothing |
| Systems.CreateKeepsNamesUnique | src/app/api/systems/route.ts:123-136 | a create that passes the check keeps the names unique within each subject |
| Systems.NameClashIsTaken | src/app/api/systems/route.ts:200-215 | while names are unique per subject, the rename check refuses exactly a changed non-empty name that another system of the target subject has |
| Systems.Update | src/app/api/systems/route.ts:176-242 | a missing id gets 400, an unknown id 404, a name clash 400; a target subject that does not exist fails as the foreign key does; otherwise only that system changes (fields `?? existing`, target `subjectId ?? existing.subjectId`) |
| Systems.UpdateKeepsNamesUnique | src/app/api/systems/route.ts:200-228 | an update that passes the check while renaming, or that keeps both its name and its subject, keeps names unique per subject |
| Systems.MoveCanDuplicateNames | src/app/api/systems/route.ts:201-202 | the check is skipped when the name is unchanged, so moving a system to another subject can give that subject two systems with one name |
| Systems.Delete | src/app/api/systems/route.ts:245-288 | a missing id gets 400, an unknown id 404; otherwise the system and its sections, questions, files and folders go, and the statistics are refreshed |
| Systems.ByPositionOrder | src/app/api/systems/route.ts:45-76 | the listing holds each system of the subject (or each system) once, ordered by `order` and then by creation time |
| MarksSections.MarksLabelParses | src/app/api/marks-sections/route.ts:145 | the default label `${marks} Markers` reads back, with `parseInt`, as its marks value, for every integer the handler accepts, negative ones included |
| MarksSections.Create | src/app/api/marks-sections/route.ts:98-170 | a missing or zero marks value gets 400 "Marks value is required"; a missing system id gets 400; an unknown system 404; a marks value the system already has gets 400 with the value in the message; otherwise the section is stored with the given label or the default one; the statistics are not refreshed |
| MarksSections.CreateKeepsMarksUnique | src/app/api/marks-sections/route.ts:130-142 | a create that passes the check keeps marks values unique within each system |
| MarksSections.MarksClashIsTaken | src/app/api/marks-sections/route.ts:197-212 | the update check refuses exactly a non-zero, changed marks value that some section of the target system has |
| MarksSections.Update | src/app/api/marks-sections/route.ts:173-238 | a missing id gets 400, an unknown one 404, a clash 400; a target system that does not exist fails as the foreign key does; otherwise only the section changes, to `marks ?? existing`, `label ?? existing` and `systemId ?? existing` |
| MarksSections.Delete | src/app/api/marks-sections/route.ts:241-285 | a missing id gets 400, an unknown one 404; otherwise the section and its questions, files and folders go, and the statistics are refreshed |
| MarksSections.ByMarksMembers | src/app/api/marks-sections/route.ts:56-81 | the listing holds exactly the sections of the system, or all sections |
| MarksSections.ByMarksOrder | src/app/api/marks-sections/route.ts:81 | the listing holds each section once, highest marks first |
| MarksSections.SectionQuestionsOrder | src/app/api/marks-sections/route.ts:30-38 | a section's questions are listed once each, by score and then repeat count, both descending |
| Questions.NewQuestion | src/app/api/questions/route.ts:165-240 | the created row's repeat count is the number of years given, its years are the list given (default empty), and its score is the rounded score of those years, between 0 and 1 in whole hundredths |
| Questions.Create | src/app/api/questions/route.ts:165-265 | a blank title gets 400; a missing parent id gets 400 "Subject, System, and Marks Section are required"; an unknown subject, system or section gets 404 in that order; otherwise the question is stored with a fresh id and the statistics are refreshed; errors change nothing |
| Questions.UpdatedQuestion | src/app/api/questions/route.ts:330-351 | the updated row's derived columns match its years: the years given, else the stored years read back |
| Questions.UpdateNothingChangesNothing | src/app/api/questions/route.ts:330-351 | an update body with no field leaves a question whose derived columns are current unchanged |
| Questions.UpdateKeepsOmitted | src/app/api/questions/route.ts:336-351 | each field the body omits keeps its stored value (`?? existing`), and the creation time is kept |
| Questions.Update | src/app/api/questions/route.ts:267-373 | a missing id gets 400, an unknown one 404; a given parent id that names no row gets 404, checked subject, system, section; otherwise only that question changes, to `UpdatedQuestion` |
| Questions.Delete | src/app/api/questions/route.ts:376-418 | a missing id gets 400, an unknown one 404; otherwise the question and its files and folders go, and the statistics are refreshed |
| Questions.SortDirs | src/app/api/questions/route.ts:108-112 | the order has two keys when the column is sortable (the column, then `createdAt`) and one otherwise |
| Questions.SortKeyFits | src/app/api/questions/route.ts:108-112 | every question's sort key has one entry per direction |
| Questions.Views | src/app/api/questions/route.ts:145-149 | each listed question carries its row and its years read back; with every id present, one view per id in the same order |
| Questions.ListingOrder | src/app/api/questions/route.ts:96-143 | the listing holds exactly the questions matching the filter, each once, each row ordered no later than the next by the requested key |
| Questions.DefaultOrder | src/app/api/questions/route.ts:50-51 | by default the listing is by score, highest first, and newest first among equal scores |
| Questions.LimitedRows | src/app/api/questions/route.ts:142 | no limit returns every row; a numeric limit `n >= 0` returns the first `n` rows; a limit that is not a number fails the query |
| Files.StoredPathExtension | src/app/api/files/route.ts:151-154 | the stored path ends in the upload's extension, or in `bin` when its name has nothing after the last dot |
| Files.NewFile | src/app/api/files/route.ts:164-176 | the row is named by the custom name when one is given, else by the original name; its type comes from the original name; its description is none exactly when blank; it keeps the question, the folder and the size; its path ends in the upload's extension |
| Files.TypeIgnoresCustomName | src/app/api/files/route.ts:166-167 | the type does not depend on the custom name |
| Files.Create | src/app/api/files/route.ts:100-193 | no file gets 400 "No file provided"; a missing question id 400; an unknown question 404; a folder id that names no folder 404; otherwise the file row is stored with a fresh id, its type taken from the corrected lookup `FileTypes.GetFileType`, and the statistics are refreshed; errors change nothing. For the extensions `constructor` and `__proto__` the source hands the create a non-string type instead (see "## Findings") |
| Files.NewFolder | src/app/api/files/route.ts:238 | an absent `folderId` keeps the folder, `null` detaches the file, an id moves it |
| Files.UpdatedFile | src/app/api/files/route.ts:233-240 | name and description are `?.trim() ?? existing`, the folder follows `NewFolder`, and the type, path, size, question and creation time are kept |
| Files.EmptyUpdateKeepsFile | src/app/api/files/route.ts:233-240 | an update with no field leaves the file as it was |
| Files.UpdateKeepsUpload | src/app/api/files/route.ts:233-240 | an update changes at most the name, the description and the folder |
| Files.Update | src/app/api/files/route.ts:196-257 | a missing id gets 400, an unknown one 404, a folder id that names no folder 404; otherwise only the file row changes; the statistics are not refreshed |
| Files.RemoveFileCascadesNothing | src/app/api/files/route.ts:293-296 | deleting a file removes no other row |
| Files.Delete | src/app/api/files/route.ts:260-316 | a missing id gets 400, an unknown one 404; otherwise exactly that file row goes and the statistics are refreshed |
| Files.NewestOrder | src/app/api/files/route.ts:71-84 | the listing holds each file matching the question and folder filters once, newest first |
| Files.Get | src/app/api/files/route.ts:36-97 | an unknown id gets 404 "File not found", a known one that file; without an id the listing holds only matching files |
| FileTypes.LastSegment | src/app/api/files/route.ts:18 | `split('.').pop()`: the suffix of the name after its last dot, containing no dot, the whole name when it has none |
| FileTypes.GetFileType | src/app/api/files/route.ts:17-33 | the type is one of pdf, docx, ppt, image, other, and is other exactly when the lower-cased extension is not in the table |
| FileTypes.DiskExtension | src/app/api/files/route.ts:153 | `pop() \|\| 'bin'`: the extension when not empty, else `bin`; never empty, never containing a dot |
| FileTypes.LastSegmentAfterDot | src/app/api/files/route.ts:18 | the extension of `base.ext` is `ext` when `ext` has no dot |
| FileTypes.NoDotName | src/app/api/files/route.ts:18 | a name without a dot is its own extension |
| FileTypes.ToLowerIdempotent | src/app/api/files/route.ts:18 | lower-casing twice is lower-casing once |
| FileTypes.FileTypeByExtension | src/app/api/files/route.ts:17-33 | the type of `base.ext` is looked up by the lower-cased `ext`, so the case of the extension does not matter |
| FileTypes.ExampleUpperCasePdf | src/app/api/files/route.ts:17-33 | a name ending in `.PDF`, such as `Notes.v2.PDF`, is a pdf |
| FileTypes.ExampleTrailingDot | src/app/api/files/route.ts:17-33 | a name ending in a dot, such as `scan.`, is of type other and is stored with extension `bin` |
| FileTypes.ExampleUnknownExtension | src/app/api/files/route.ts:17-33 | a name ending in `.gz`, such as `archive.tar.gz`, is of type other and keeps extension `gz` |
| FileTypes.TypeMapLookup | src/app/api/files/route.ts:19-32 | a property read on the table finds an own entry exactly for the listed extensions |
| FileTypes.AsWrittenAgrees | src/app/api/files/route.ts:32 | apart from the two inherited property names, the lookup as written gives the type `GetFileType` gives |
| FileTypes.ConstructorInherited | src/app/api/files/route.ts:19-32 | `constructor` is not listed but every object inherits it |
| FileTypes.InheritedKeyCounterexample | src/app/api/files/route.ts:32 | a name ending in `.constructor` gets no string type as written, while the intended type is other |
| Folders.FoundIffTaken | src/app/api/folders/route.ts:101-106 | the `findFirst` finds a folder exactly when the question has a folder with that name |
| Folders.Create | src/app/api/folders/route.ts:69-134 | a blank name gets 400 "Folder name is required"; a missing question id 400; an unknown question 404; a trimmed name the question already has 400; otherwise a folder with the trimmed name and a fresh id is stored; errors change nothing |
| Folders.CreateKeepsNamesUnique | src/app/api/folders/route.ts:101-120 | a create that passes the check keeps folder names unique per question, and the stored name has no surrounding space |
| Folders.Update | src/app/api/folders/route.ts:137-196 | a missing id gets 400, an unknown one 404, a changed name the question already has (after trimming, counting the folder itself) 400; otherwise only the folder's name changes, to `name?.trim() ?? existing` |
| Folders.UpdateKeepsNamesUnique | src/app/api/folders/route.ts:162-182 | a rename that passes the check, or an update that keeps the name, keeps folder names unique per question |
| Folders.PaddedOwnNameRefused | src/app/api/folders/route.ts:162-174 | renaming a folder to its own name with a leading space is refused, since the check finds the folder itself |
| Folders.Unlinked | src/app/api/folders/route.ts:224-228 | the `updateMany` keeps every file and takes exactly the folder's files out of it |
| Folders.DeleteIsUnlinkThenDelete | src/app/api/folders/route.ts:223-233 | on linked tables, removing the folder through the cascade equals unlinking its files and then deleting the folder |
| Folders.Delete | src/app/api/folders/route.ts:199-245 | a missing id gets 400, an unknown one 404; otherwise the folder's files are taken out of it and the folder goes; no file is deleted |
| Folders.ByNameMembers | src/app/api/folders/route.ts:41-53 | the listing holds exactly the folders of the question, or all folders |
| Folders.ByNameOrder | src/app/api/folders/route.ts:52 | the listing is in ascending order of name by character code, no folder twice |
| Statistics.Refresh | src/app/api/statistics/route.ts:147-192 | PUT recounts subjects, systems, questions and files into the single statistics row, creating it when missing, changes no other table, and returns that row |
| Statistics.RefreshIdempotent | src/app/api/statistics/route.ts:147-178 | refreshing twice gives the same tables as refreshing once |
| Statistics.RepeatSum | src/app/api/statistics/route.ts:60-62 | the sum over no question is 0, and is never negative when no repeat count is |
| Statistics.RepeatSumAdd | src/app/api/statistics/route.ts:60-62 | adding one question to the summed set adds its repeat count |
| Statistics.RepeatSumFrame | src/app/api/statistics/route.ts:60-62 | the sum depends only on the repeat counts of the rows summed |
| Statistics.TotalRepeatCount | src/app/api/statistics/route.ts:60-130 | `_sum.repeatCount \|\| 0` is 0 on an empty table and never negative when no repeat count is |
| Statistics.TotalAfterInsert | src/app/api/statistics/route.ts:60-62 | storing a new question raises the total by its repeat count |
| Statistics.Bookmarked | src/app/api/statistics/route.ts:56-58 | the bookmarked count is at most the number of questions |
| Statistics.Recent | src/app/api/statistics/route.ts:72-77 | the recent count is at most the number of questions, and 0 when every question is older than seven days |
| Statistics.WithFiles | src/app/api/statistics/route.ts:64-70 | the count of questions with a file is at most the number of questions, and 0 when there are no files |
| Statistics.CountsOf | src/app/api/statistics/route.ts:80-92 | a subject's entry carries its id, name and colour, and counts of its systems and questions bounded by the table sizes |
| Statistics.CountsFor | src/app/api/statistics/route.ts:80-92 | one entry per subject id, in order |
| Statistics.SubjectBreakdown | src/app/api/statistics/route.ts:80-92 | one entry per subject, each the subject's own counts, every subject present |
| Statistics.Entry | src/app/api/statistics/route.ts:116-123 | an entry counts the group's questions and carries the section's marks and label, or 0 and the empty label when the section is gone |
| Statistics.Entries | src/app/api/statistics/route.ts:116-123 | one entry per group, in order |
| Statistics.MarksBreakdown | src/app/api/statistics/route.ts:96-123 | one entry per group of the `groupBy` |
| Statistics.GroupIffQuestions | src/app/api/statistics/route.ts:96-101 | a section is a group exactly when it has questions |
| Statistics.BreakdownGroups | src/app/api/statistics/route.ts:96-123 | the breakdown lists the sections with questions, each entry that section's, each count positive |
| Statistics.CountSumGroups | src/app/api/statistics/route.ts:116-123 | the counts of entries for distinct groups add up to the questions in those groups |
| Statistics.BreakdownTotal | src/app/api/statistics/route.ts:96-123 | the counts of the breakdown add up to the number of questions |
| Statistics.OverviewOf | src/app/api/statistics/route.ts:125-136 | GET's payload is the recounted row plus the repeat total, bookmarked, recent, with-files counts and the two breakdowns |
| Statistics.Get | src/app/api/statistics/route.ts:5-144 | GET creates or updates the row as PUT does, changes nothing else, and answers the overview of the tables |
| Store.ParseYears | src/app/api/questions/route.ts:32-38 | the JSON text of a list of years, whether a handler or a backup wrote it, reads back as that list; text `JSON.parse` does not read as a list reads back as no years |
| Store.FindFirstStable | src/app/api/systems/route.ts:124-129 | a `findFirst` that found a row finds the same row after rows with newer ids are added |
| Store.FindFirstNew | src/app/api/systems/route.ts:124-129 | when no row matched, a `findFirst` after adding a matching row finds that row |
| Store.Recount | src/app/api/subjects/route.ts:229-234 | the recount holds the number of subjects, systems, questions and files |
| Store.Refreshed | src/app/api/subjects/route.ts:228-259 | `updateStatistics` sets the statistics row to the recount, creating it when missing, and changes no other table |
| Store.RefreshedIfPresent | src/app/api/seed-questions/route.ts:316-334 | the refresh that only updates an existing row leaves the tables alone when there is none, and otherwise refreshes them |
| Store.Prune | src/app/api/subjects/route.ts:206-209 | the cascade after a delete leaves tables whose references all resolve, keeps the subjects, removes only rows whose parent is gone, and only clears a file's folder when that folder is gone; conversely it keeps every system whose subject is there, every section whose system survives, every question whose three parents survive, every folder and file whose question survives, and leaves a file untouched when its folder survives |
| Store.PruneLinked | src/app/api/subjects/route.ts:206-209 | the cascade removes nothing from tables whose references all resolve |
| Store.PruneKeeps | src/app/api/subjects/route.ts:206-209 | the cascade keeps every per-scope uniqueness of names and marks, and the id bound |
| Store.Catalog.NewId | src/app/api/subjects/route.ts:93-100 | the id a create gets is new in every table, and the tables are unchanged |
| Store.Catalog.Remove | src/app/api/subjects/route.ts:206-209 | a delete stores the tables after the cascade and keeps the catalog invariant |
| Store.Catalog.RefreshStatistics | src/app/api/subjects/route.ts:228-259 | the tables become their refreshed form, and the catalog invariant is kept |
| Store.Catalog.RefreshStatisticsIfPresent | src/app/api/seed-questions/route.ts:316-334 | the tables become their conditionally refreshed form, and the catalog invariant is kept |
| Scoring.ParseInt | src/app/api/questions/route.ts:13 | `parseInt` without a radix: blank text is `NaN`, and only text that opens with a minus sign reads as a negative number |
| Scoring.HexRun | src/app/api/questions/route.ts:13 | the leading run of hexadecimal digits `parseInt` reads after `0x`: all hexadecimal digits, and followed by another character or the end |
| Scoring.HexDigitValue | src/app/api/questions/route.ts:13 | a hexadecimal digit is worth less than 16 |
| Scoring.ParseHex | src/app/api/questions/route.ts:13 | `parseInt` reads `0x` and a run of hexadecimal digits in base 16 |
| Scoring.HexYearRecent | src/app/api/questions/route.ts:12-15 | the year text `0x7E8` is 2024 to `parseInt`, so it is recent in 2024; `0x` alone is `NaN` |
| Scoring.ShownNotHex | src/app/api/questions/route.ts:13 | the decimal text of a number opens with `0x` only when the number is 0 and an `x` follows |
| Scoring.DigitRun | src/app/api/questions/route.ts:13 | the leading run of digits `parseInt` reads: all digits, and followed by a non-digit or the end |
| Scoring.ShowNat | src/app/api/marks-sections/route.ts:145 | a number shows as a non-empty run of digits |
| Scoring.ShowNatValue | src/app/api/marks-sections/route.ts:145 | the digits shown for a number have that number's value |
| Scoring.DigitRunOfDigits | src/app/api/questions/route.ts:13 | `parseInt` reads a run of digits up to the first non-digit |
| Scoring.ParseShowNat | src/app/api/questions/route.ts:13 | `parseInt` reads back a shown number followed by a non-digit, unless that is `0` followed by `x` |
| Scoring.ShowInt | src/app/api/marks-sections/route.ts:139 | a template literal shows every integer as non-empty text |
| Scoring.ParseShowInt | src/app/api/marks-sections/route.ts:145 | `parseInt` reads back any integer, negative ones included, written as a template literal and followed by a non-digit, unless that is `0` followed by `x` |
| Scoring.RecentCount | src/app/api/questions/route.ts:12-15 | at most every year counts as recent |
| Scoring.RepeatScore | src/app/api/questions/route.ts:20 | `min(repeatCount / 10, 1)` lies between 0 and 1 |
| Scoring.RecencyScore | src/app/api/questions/route.ts:16 | `min(recent / 5, 1)` lies between 0 and 1 |
| Scoring.GlobalScore | src/app/api/questions/route.ts:23 | the global importance clamped to between 0 and 1, kept when inside |
| Scoring.Round2Nearest | src/app/api/questions/route.ts:28 | `Math.round(x * 100) / 100` is within half a hundredth of `x` and a whole number of hundredths |
| Scoring.Round2Monotone | src/app/api/questions/route.ts:28 | rounding keeps the order |
| Scoring.ImportanceScore | src/app/api/questions/route.ts:5-29 | the importance score lies between 0 and 1 in whole hundredths, for every input |
| Scoring.TermsSaturate | src/app/api/questions/route.ts:16-26 | ten repeats give the full repeat score, fewer give a tenth each; five recent years give the full recency score; with both, the score is `0.8 + 0.2 * global`, rounded |
| Scoring.ScoreWithoutYears | src/app/api/questions/route.ts:5-29 | a question with no years scores `0.2 * global`, rounded |
| Scoring.IsRecent | src/app/api/questions/route.ts:12-15 | a year `parseInt` cannot read is never recent; a year it reads as at or after the current year always is |
| Scoring.RecentShownYear | src/app/api/questions/route.ts:12-15 | a written year is recent exactly when it is at most five years back |
| Scoring.RecentCountAppend | src/app/api/questions/route.ts:12-15 | the recent count of two lists of years adds up |
| Scoring.RecentCountPermutation | src/app/api/questions/route.ts:12-15 | the recent count does not depend on the order of the years |
| Scoring.ScoreIgnoresOrder | src/app/api/questions/route.ts:222-223 | two questions with the same years in any order get the same score |
| Scoring.ScoreMonotoneInWeight | src/app/api/questions/route.ts:23-28 | a higher global importance never lowers the score |
| Scoring.RecentCountCons | src/app/api/questions/route.ts:12-15 | a written year adds one to the recent count exactly when at most five years back |
| Scoring.ExampleRecentCount | src/app/api/questions/route.ts:12-15 | of 2023, 2022, 2021, 2020, 2019 and 2010, five are recent in 2024 |
| Scoring.ScoreExample | src/app/api/questions/route.ts:5-29 | six such years with importance 0.9 score 0.82 in 2024 |
| Text.TrimStart | src/app/api/subjects/route.ts:95 | the leading white space is dropped, what remains is a suffix that starts with no space |
| Text.TrimEnd | src/app/api/subjects/route.ts:95 | the trailing white space is dropped, what remains is a prefix that ends with no space |
| Text.TrimOrNull | src/app/api/subjects/route.ts:96 | `x?.trim() \|\| null` is none exactly when the text is absent or blank, and otherwise the trimmed text |
| Text.TrimOr | src/app/api/subjects/route.ts:160 | `x?.trim() ?? current` keeps the current value only when the field is absent |
| Text.TrimOrKeep | src/app/api/subjects/route.ts:161 | `x?.trim() ?? current` for a nullable column: absent keeps, present (even blank) replaces with the trimmed text |
| Text.OrDefault | src/app/api/subjects/route.ts:97 | `x \|\| fallback` takes the value when it is a non-empty text, and the fallback otherwise |
| Text.TrimIdempotent | src/app/api/subjects/route.ts:95 | a trimmed text has no surrounding space, and trimming it again changes nothing |
| Text.BlankIffAllSpace | src/app/api/subjects/route.ts:74 | a text trims to empty exactly when it is all white space |
| Text.ToLower | src/app/api/files/route.ts:18 | lower-casing keeps the length and maps each character |
| Ordering.MinOf | src/app/api/seed-questions/route.ts:275-276 | the least id of a non-empty set, the row a `find` over rows in id order meets first |
| Ordering.FindFirst | src/app/api/systems/route.ts:124-129 | `findFirst` finds nothing exactly when no row matches, and otherwise the matching row with the least id |
| Ordering.SortedIds | src/app/api/statistics/route.ts:96-101 | the groups in increasing id order: every id of the set once |
| Ordering.StrCmp | src/app/api/folders/route.ts:52 | the text order compares character codes and is 0 exactly on equal texts |
| Ordering.Cmp | src/app/api/featured/route.ts:54-58 | an `orderBy` list compares rows as -1, 0 or 1 |
| Ordering.CmpFlip | src/app/api/featured/route.ts:54-58 | swapping the rows negates the comparison |
| Ordering.CmpTrans | src/app/api/featured/route.ts:54-58 | the `orderBy` order is transitive |
| Ordering.SortBy | src/app/api/featured/route.ts:54-58 | the sorted rows are a permutation of the rows and are in order |
| Ordering.Take | src/app/api/questions/route.ts:142 | `take: n` keeps the first `n` rows, and for negative `n` the last `-n` rows |
| Ordering.Select | src/app/api/featured/route.ts:22-28 | the `where` keeps exactly the matching rows, each with its own key |
| Ordering.Query | src/app/api/featured/route.ts:27-60 | `findMany` with `where` and `orderBy` lists exactly the matching rows, once each, each with its own key |
| Ordering.QuerySorted | src/app/api/featured/route.ts:54-58 | the listing is in `orderBy` order |
| Ordering.QueryOrder | src/app/api/featured/route.ts:54-58 | each listed row comes no later than the next by its key |
| Ordering.QueryTopItems | src/app/api/featured/route.ts:59 | `take` keeps matching rows only, and all of them when it keeps fewer than asked |
| Ordering.QueryTopRank | src/app/api/featured/route.ts:54-59 | a matching row that `take` leaves out comes no earlier than any row kept |
| Ordering.Top | src/app/api/subjects/route.ts:34-38 | the top rows are at most `n` |
| Ordering.TopMembers | src/app/api/subjects/route.ts:30-38 | the top rows match the filter, and all matching rows are kept when fewer than `n` are |
| Ordering.TopOrder | src/app/api/subjects/route.ts:34-38 | the top rows come once each, in the column-by-column order of their numbers, each column ascending or descending as asked |
| Ordering.TopRank | src/app/api/subjects/route.ts:34-38 | a matching row left out of the top comes no earlier than any row kept |
| Featured.RankOrder | src/app/api/featured/route.ts:54-58 | one question comes no later than another exactly when it has a higher score, or an equal score and a higher repeat count, or both equal and a creation time no earlier |
| Featured.LimitDefaults | src/app/api/featured/route.ts:19 | an absent or empty `limit` is 30; any other is read with `parseInt` |
| Featured.Ranked | src/app/api/featured/route.ts:22-28 | the ranked listing holds exactly the questions of the given subject and system |
| Featured.RankedOrder | src/app/api/featured/route.ts:54-58 | the ranked listing holds each question once, in rank order |
| Featured.Views | src/app/api/featured/route.ts:62-66 | one entry per listed question, in order, each with its row and its years read back |
| Featured.TakeStretch | src/app/api/featured/route.ts:59 | a `take` of either sign keeps one unbroken stretch of the listing |
| Featured.TakeWithin | src/app/api/featured/route.ts:59 | a `take` keeps only rows of the listing |
| Featured.SliceOrdered | src/app/api/featured/route.ts:54-58 | a stretch of a listing in rank order is in rank order |
| Featured.TakeOrdered | src/app/api/featured/route.ts:54-59 | a `take` of a listing in rank order is in rank order |
| Featured.TakeTop | src/app/api/featured/route.ts:54-59 | the first `n` rows: at most `n`, fewer only when the whole listing is kept, and every row left out ranks no higher than each row kept |
| Featured.Kept | src/app/api/featured/route.ts:22-59 | the kept questions are questions of the given subject and system |
| Featured.Get | src/app/api/featured/route.ts:14-79 | a limit `parseInt` rejects fails as the query does, with 500 "Failed to fetch featured questions"; otherwise GET answers the views of the kept questions |
| Featured.ViewsSelect | src/app/api/featured/route.ts:62-66 | a view is in the answer exactly when its id is kept and it carries that question's row and its parsed years |
| Featured.GetSelects | src/app/api/featured/route.ts:14-71 | a view is answered exactly when its question is kept, carried with its row and parsed years; every answered question is of the given subject and system |
| Featured.GetOrder | src/app/api/featured/route.ts:54-59 | the featured questions come once each, best first by score, then repeat count, then newest |
| Featured.GetTop | src/app/api/featured/route.ts:19-59 | with a limit `n >= 0` at most `n` questions are answered, all in scope when fewer, and any question left out ranks no higher than each answered one |
| Featured.GetDefaultLimit | src/app/api/featured/route.ts:19 | no limit answers as limit "30" does, with at most 30 questions |
| Featured.ViewsOrdered | src/app/api/featured/route.ts:54-66 | reading back the years keeps the rank order and the distinct ids |
| Seed.FoundIffTaken | src/app/api/seed/route.ts:109-114 | the section lookup finds a row exactly when the system already has a section with those marks |
| Seed.SeededIgnoresStats | src/app/api/seed/route.ts:140-167 | rewriting the statistics row does not undo what a run has seeded |
| Seed.SeedSection | src/app/api/seed/route.ts:107-125 | a section with the given marks, labelled "`marks` Markers", is created under a fresh id exactly when the system has none, and nothing else changes |
| Seed.SeedSections | src/app/api/seed/route.ts:107-125 | after the loop over 10, 8, 5, 4, 3, 2, 1 the system has a section for every one of them; only sections of that system are added, and the count added is returned |
| Seed.FindOrCreateSystem | src/app/api/seed/route.ts:86-103 | the subject's system of that name is returned when there is one, and otherwise one is created with the listed description and order |
| Seed.SeedSystem | src/app/api/seed/route.ts:82-125 | the listed system exists and is seeded afterwards; only that system and its sections are added, and nothing at all when it was already seeded |
| Seed.SeedSystems | src/app/api/seed/route.ts:82-125 | every listed system of the subject is seeded; rows only grow, under fresh ids, and nothing changes when all were already seeded |
| Seed.FindOrCreateSubject | src/app/api/seed/route.ts:64-79 | the subject of that name is returned when it exists, and otherwise it is created with the listed description, colour and icon |
| Seed.SeedSubject | src/app/api/seed/route.ts:64-125 | the listed subject and all its listed systems are seeded, with the added rows counted |
| Seed.Run | src/app/api/seed/route.ts:48-167 | the run seeds every listed subject, reports exactly the rows it added and no errors, keeps every earlier row, and leaves the statistics row equal to the table counts; a second run adds nothing |
| Seed.Post | src/app/api/seed/route.ts:48-173 | POST always succeeds, seeds the fixed subject and system lists, and reports the catalog seeded afterwards |
| Seed.Status | src/app/api/seed/route.ts:184-200 | GET reports the three table sizes and counts the catalog as seeded exactly when it has a subject |
| Seed.SeededAfterRun | src/app/api/seed/route.ts:193 | after a run over at least one subject GET reports the catalog seeded, with systems and sections when that subject lists a system |
| Seed.SeedDataSeeded | src/app/api/seed/route.ts:5-62 | after a run over the fixed seed data GET reports subjects, systems and sections |
| SeedQuestions.MarksValue | src/app/api/seed-questions/route.ts:270-273 | a marks label stands for 10, 4 or 2, and any label other than "4 Markers" and "2 Markers" stands for 10 |
| SeedQuestions.MarksValueOfLabel | src/app/api/seed-questions/route.ts:270-273 | the labels the seeding route gives sections read back as their own marks |
| SeedQuestions.NewQuestion | src/app/api/seed-questions/route.ts:288-305 | a created question carries the listed title, the years serialised, their count as repeat count, the score computed from them, and its subject, system and section |
| SeedQuestions.FoundIffTitleTaken | src/app/api/seed-questions/route.ts:281-286 | the lookup by title and section finds a row exactly when the section already has a question with that title |
| SeedQuestions.SectionFor | src/app/api/seed-questions/route.ts:275-276 | the section chosen for an entry is the system's first section with the label's marks, and none is chosen exactly when the system has no such section |
| SeedQuestions.SystemList | src/app/api/seed-questions/route.ts:250-258 | a subject's systems are listed once each, in id order, and they are exactly the systems of that subject |
| SeedQuestions.AddListCovers | src/app/api/seed-questions/route.ts:280-310 | after the innermost loop the section has every listed title |
| SeedQuestions.AddListCovered | src/app/api/seed-questions/route.ts:280-310 | the innermost loop adds nothing when the section already has every listed title |
| SeedQuestions.SeedingGrows | src/app/api/seed-questions/route.ts:260-312 | a run only creates questions, as many as it reports, each one placed in a section of its system with its listed data, and afterwards every listed question is in place |
| SeedQuestions.SeedingIdempotent | src/app/api/seed-questions/route.ts:281-301 | a run over a catalog that already has every listed question changes nothing and reports nothing added |
| SeedQuestions.AllCoveredIgnoresStats | src/app/api/seed-questions/route.ts:316-334 | refreshing the statistics row keeps every listed question in place |
| SeedQuestions.SecondRunAddsNothing | src/app/api/seed-questions/route.ts:242-334 | a second POST right after a first one adds no question |
| SeedQuestions.SeedQuestion | src/app/api/seed-questions/route.ts:281-301 | one listed question is created under the next id unless its section already has its title, and only the questions table changes |
| SeedQuestions.SeedList | src/app/api/seed-questions/route.ts:280-310 | the loop over one entry's questions does what the step function over that list does |
| SeedQuestions.SeedEntry | src/app/api/seed-questions/route.ts:268-310 | one entry goes to the section its label picks, or is skipped when the system has none |
| SeedQuestions.SeedEntries | src/app/api/seed-questions/route.ts:268-310 | the loop over a system's entries, in the order written, does what the step function does |
| SeedQuestions.SeedSystem | src/app/api/seed-questions/route.ts:264-266 | a system with no data listed under its name is skipped |
| SeedQuestions.SeedSystems | src/app/api/seed-questions/route.ts:264-311 | the loop over a subject's systems does what the step function does |
| SeedQuestions.SeedSubject | src/app/api/seed-questions/route.ts:261-262 | a subject with no data listed under its name is skipped |
| SeedQuestions.SeedSubjects | src/app/api/seed-questions/route.ts:260-312 | the loop over the subjects in id order does what the step function does |
| SeedQuestions.Post | src/app/api/seed-questions/route.ts:242-339 | POST runs the loops, refreshes the statistics row only when one exists, and reports the questions added with no error |
| SeedQuestions.Status | src/app/api/seed-questions/route.ts:353-361 | GET reports whether a question exists, and that holds exactly when the count is positive |
| SeedQuestions.StatusAfterSeeding | src/app/api/seed-questions/route.ts:242-361 | after a run GET counts the questions there before plus those added, and reports questions once any were added |
| Backup.Table | src/app/api/backup/route.ts:26-33 | a table is exported as one record per row, in id order, carrying exactly the table's ids and rows |
| Backup.ExportQuestions | src/app/api/backup/route.ts:36-39 | each question is exported as its row with the years read back as a list |
| Backup.Export | src/app/api/backup/route.ts:41-63 | the export has version "1.0", the statistics row as stored, every table, and counts equal to both the table sizes and the exported list lengths |
| Backup.ExportQuestion | src/app/api/backup/route.ts:36-39 | an exported question carries its years as the list `parseYears` reads from the stored text |
| Backup.QuestionRows | src/app/api/backup/route.ts:272-274 | each question record becomes the row its id and columns give |
| Backup.QuestionRowsOfExport | src/app/api/backup/route.ts:36-39 | reading back the exported questions of a table whose years were all serialised gives that table |
| Backup.ExportedYears | src/app/api/backup/route.ts:36-39 | each exported question is a stored one whose years are what `parseYears` reads from its stored text |
| Backup.QuestionRow | src/app/api/backup/route.ts:272-274 | an imported question keeps its columns as given; a list of years is serialised; text that `JSON.parse` (the `parse` parameter) reads as a list is stored as that list and reads back as it, so a later update recomputes the repeat count from it; other text is kept as it is and reads back as no years; exporting the row gives the record back exactly when its years are the parsed list |
| Backup.QuestionRoundTrip | src/app/api/backup/route.ts:272-274 | importing an exported question whose years were serialised gives back the same row |
| Backup.SubjectWriteValid | src/app/api/backup/route.ts:121-166 | a subject write the database accepts keeps the tables valid |
| Backup.Cleared | src/app/api/backup/route.ts:100-107 | replace mode empties the six tables and keeps the statistics row |
| Backup.ImportAccounts | src/app/api/backup/route.ts:110-448 | each counter is at most the number of records of its collection, and every record is either counted or named in the errors |
| Backup.ReplaceMode | src/app/api/backup/route.ts:100-123 | replace mode clears the tables and creates every record without looking up its id |
| Backup.ReplaceRestoresTables | src/app/api/backup/route.ts:110-448 | importing the six tables of a valid catalog into emptied tables restores every table, counts every row and reports no error |
| Backup.ReplaceRestoresExport | src/app/api/backup/route.ts:18-448 | importing a catalog's own export in replace mode, over any tables, restores that catalog, counts every row, reports no error and keeps the statistics row |
| Backup.ImportSubject | src/app/api/backup/route.ts:121-166 | one subject record is updated or created under its id and counted, or refused (an id in use outside merge mode, or a name taken by another subject) with "Subject: name" added to the errors and nothing changed |
| Backup.ImportSystem | src/app/api/backup/route.ts:172-217 | one system record is written and counted, or refused (an id in use outside merge mode, or an unknown subject) with its error added and nothing changed |
| Backup.ImportSection | src/app/api/backup/route.ts:223-265 | one marks section record is written and counted, or refused (an id in use outside merge mode, or an unknown system) with its error added and nothing changed |
| Backup.ImportQuestion | src/app/api/backup/route.ts:271-341 | one question record is written and counted, or refused (an id in use outside merge mode, or an unknown subject, system or section) with its error added and nothing changed |
| Backup.ImportFolder | src/app/api/backup/route.ts:347-386 | one folder record is written and counted, or refused (an id in use outside merge mode, or an unknown question) with its error added and nothing changed |
| Backup.ImportFile | src/app/api/backup/route.ts:391-450 | one file record is written and counted, or refused (an id in use outside merge mode, or an unknown question or folder) with its error added and nothing changed |
| Backup.ImportSubjects | src/app/api/backup/route.ts:120-167 | the loop over the subject records does what the import function over that list does; a refused record does not stop the rest |
| Backup.ImportSystems | src/app/api/backup/route.ts:171-218 | the loop over the system records does what the import function does |
| Backup.ImportSections | src/app/api/backup/route.ts:222-266 | the loop over the marks section records does what the import function does |
| Backup.ImportQuestions | src/app/api/backup/route.ts:270-343 | the loop over the question records does what the import function does |
| Backup.ImportFolders | src/app/api/backup/route.ts:346-393 | the loop over the folder records does what the import function does |
| Backup.ImportFiles | src/app/api/backup/route.ts:391-450 | the loop over the file records does what the import function does |
| Backup.Post | src/app/api/backup/route.ts:85-476 | POST without data is refused with "No backup data provided" and changes nothing; otherwise it runs the import, refreshes the statistics row if one exists and reports the counters and errors |
| Dashboard.NavigationConsistent | src/app/page.tsx:389-408 | each navigation leaves the selections matching the view: a subject selected in the subject view, and a system and section only below it |
| Dashboard.BackSteps | src/app/page.tsx:410-421 | going back from the dashboard changes nothing, from any other view it climbs exactly one level, and it keeps the selections matching the view |
| Dashboard.BackUndoes | src/app/page.tsx:389-421 | going back right after a navigation returns to the view and selections before it |
| Dashboard.BackHome | src/app/page.tsx:410-421 | going back as many times as the view is deep, or more, always reaches the dashboard with nothing selected |
| Dashboard.HomeStays | src/app/page.tsx:410-421 | going back any number of times from the dashboard stays there |
| Dashboard.Without | src/app/page.tsx:434-439 | removing a year keeps exactly the other years, and never lengthens the list |
| Dashboard.WithoutConcat | src/app/page.tsx:434-439 | removing a year from a joined list is removing it from each part |
| Dashboard.WithoutAbsent | src/app/page.tsx:434-439 | removing a year that is not listed changes nothing |
| Dashboard.AddYearProperties | src/app/page.tsx:424-432 | adding a year keeps the list free of repeats, lists a non-empty year afterwards, keeps every earlier year, and adding it again changes nothing |
| Dashboard.WithoutNoDuplicates | src/app/page.tsx:434-439 | removing a year never introduces a repeat |
| Dashboard.RemoveUndoesAdd | src/app/page.tsx:424-439 | removing a year just added, to a list without it, gives back the list before |
| Dashboard.Page.constructor | src/app/page.tsx:130-167 | the page starts on the dashboard with nothing selected and no years |
| Dashboard.Page.NavigateToSubject | src/app/page.tsx:389-395 | opening a subject selects it, clears the system and section and shows the subject view; the form is untouched |
| Dashboard.Page.NavigateToSystem | src/app/page.tsx:397-402 | opening a system selects it, clears the section and shows the system view |
| Dashboard.Page.NavigateToMarksSection | src/app/page.tsx:404-408 | opening a marks section selects it and shows the questions view |
| Dashboard.Page.GoBack | src/app/page.tsx:410-421 | going back clears the deepest selection and climbs one view, and does nothing on the dashboard |
| Dashboard.Page.AddYear | src/app/page.tsx:424-432 | a typed year that is non-empty and not yet listed is appended and the field cleared; otherwise nothing changes |
| Dashboard.Page.RemoveYear | src/app/page.tsx:434-439 | the year's every occurrence is removed and nothing else changes |
| Dashboard.ToggleBody | src/app/page.tsx:374-377 | the bookmark request sends the flipped flag |
| Dashboard.ToggleFlips | src/app/page.tsx:369-386 | for a question whose repeat count and score are current, the update the bookmark request makes flips exactly the flag, and toggling twice restores the question; on a question whose derived columns are stale the same update also recomputes them, as every update without `years` does |
| Dashboard.IndexOfMarks | src/app/page.tsx:1082 | the first card with the marks is found, and none is found exactly when no card has them |
| Dashboard.FindMarks | src/app/page.tsx:1082 | the search loop finds what `find` finds |
| Dashboard.Aggregate | src/app/page.tsx:1081-1089 | the reduce loop computes the aggregated cards |
| Dashboard.AggregatedSummarizes | src/app/page.tsx:1081-1089 | the aggregated cards hold each marks value of the breakdown once, with the label of its first entry and the sum of its counts |
| Dashboard.AggregatedTotal | src/app/page.tsx:1081-1089 | aggregating keeps the total count |
| Dashboard.TotalPermutation | src/app/page.tsx:1091 | reordering the cards keeps the total count |
| Dashboard.DistinctPermutation | src/app/page.tsx:1091 | reordering the cards keeps their marks distinct |
| Dashboard.Swap | src/app/page.tsx:1091 | a swap exchanges two cards and keeps the same cards |
| Dashboard.Sink | src/app/page.tsx:1091 | one insertion step extends the descending prefix by one card, keeps the same cards and leaves the rest alone |
| Dashboard.SortByMarks | src/app/page.tsx:1091 | sorting leaves the cards in descending marks order, the same cards |
| Dashboard.Distribution | src/app/page.tsx:1081-1091 | the marks distribution is the aggregated cards, reordered, in descending marks order |
| Dashboard.DistributionProperties | src/app/page.tsx:1081-1091 | the cards shown summarise the breakdown, add up to its total count, and come in strictly decreasing marks |

## Left out

- Database I/O, the clock and the random number generator are not modelled as effects. Times, the current year and random file names are method parameters, and the database is the in-memory `Store.Catalog`.
- Row ids are natural numbers from a counter in place of Prisma's generated string ids. `findFirst` without `orderBy` is modelled as taking the row with the least id, which stands for an unspecified but fixed order.
- Rows joined in with `include` or `_count` are answered as ids and counts of the related rows, not as nested JSON objects.
- `createdAt` is kept and `updatedAt` is not modelled. Dates from a backup are taken as given, without `new Date(...)` parsing.
- JSON parsing of request bodies and the `catch` paths for unexpected exceptions (HTTP 500 with the handler's generic message) are left out, except where the store itself refuses a write, such as a missing foreign key or a subject name in use.
- Error texts the database adds to a message, such as the `${error}` in a backup import error, are left out. Each error names only the record.
- `null` and `undefined` are one value, `None`. Ids are natural numbers, so an empty string cannot be given as an id: the model reads it as absent. This agrees with the handlers' truthiness tests, but not with the places that test only for `null` or `undefined`:
  - systems/route.ts:201 (`subjectId ?? existing.subjectId`) and marks-sections/route.ts:198 (`systemId ?? existing.systemId`) make `""` the new parent, and the write fails on the foreign key (500). The model keeps the old parent.
  - questions/route.ts:347-349 (`subjectId ?? existing`, and likewise the system and section ids) skip the check at :303 for `""`, then write `""` and fail with 500. The model keeps the old ids.
  - files/route.ts:221 (`folderId !== undefined && folderId !== null`) looks up `""` and answers 404 "Folder not found". The model keeps the file's folder.
  - files/route.ts:74 (`folderId !== null`) filters a listing with `?folderId=` on the folder `""` and answers an empty list. The model lists the files of every folder.
  - backup/route.ts:90 (`mode = 'merge'`) defaults only an absent mode. With `"mode": null` the handler neither clears nor merges: it runs the create-only import. `Backup.Upserts(None)` merges.
  - questions/route.ts:171-174 (`years = []`, `globalImportance = 0.5`, `isBookmarked = false`) default only absent fields. With `"years": null` the handler throws on `years.length` (500), and a `null` weight or bookmark is handed to the database as `null`. `Questions.NewQuestion` uses `[]`, 0.5 and `false`.
  - questions/route.ts:331 (`years !== undefined`) takes `"years": null` as given, and the handler throws on its length (500). `Questions.UpdatedQuestion` keeps the stored years.
- Scores are computed over `real` rather than IEEE doubles. Rounding to two decimals is exact rounding half up.
- Concurrency between requests is left out. Each handler runs alone, from start to finish.
- `JSON.parse` of a backup's `years` text is the parameter `parse` of the import. It stands for the parse where it gives a list of years, and for `None` where it throws or gives another value.
- Store.ParseYears: text that `JSON.parse` reads as something other than a list of strings (a number, an object, a list of numbers) reads back as no years. The source passes that value on as it is.
- The backup round trip is proved for questions whose years are the JSON text of a list. Text kept as it is exports as no years and imports back as the empty list.
- The search filter's `contains` compares characters exactly. A database collation that folds case is not modelled.
- Writing upload bytes to disk, deleting them, and writing the backup file to the backup directory are left out. Only the rows and the paths they record are modelled.
- The question data of the question-seeding route is a parameter, not the literal list. Its errors list is always empty, because every write the loops make is to a section that exists.
- A backup collection that is missing or not an array is read as an empty list, and every record is assumed to carry every field.
- `Files.Create` does not check that the folder a file is filed in belongs to the file's question. The handler does not check this either.
- The page's selections are held as ids, not as the fetched objects. The `fetch` calls that follow a navigation or a bookmark toggle, and the rendering, are left out. JavaScript's sort is not assumed stable; the proof does not need it, because the aggregated marks are distinct.
- Systems.Get, MarksSections.Get, Questions.Get and Folders.Get have no contract of their own. Their listing order and membership are stated by the lemmas beside them (`ByPositionOrder`, `ByMarksMembers`, `ByMarksOrder`, `ListingOrder`, `ByNameMembers`, `ByNameOrder`).
- Text.ToLower: lowers only the ASCII capitals `A`-`Z` and keeps the length. JavaScript's `toLowerCase` lowers every capital and can lengthen text (U+0130 becomes two characters). No extension the type lookup lists is affected, so `getFileType` gives the same type either way.
- The delete behaviour of the schema (`onDelete: Cascade` from each parent to its children, and a file's folder set to null when the folder is deleted) is not among the modelled files. `Store.Prune` assumes it.
- Text.TrimStart, Text.TrimEnd: the white space trimmed is the ASCII spaces, the line terminators, NO-BREAK SPACE and the byte order mark. The other Unicode space separators that JavaScript's `trim` also removes are not modelled.

## Findings

| source | as written | input that shows it | evidently intended | confidence | as-written member | corrected member |
|---|---|---|---|---|---|---|
| src/app/api/files/route.ts:32 | `typeMap[ext] \|\| 'other'` also reads properties the table inherits from `Object.prototype`, so the extension `constructor` yields the `Object` function rather than a type name | an upload named `notes.constructor`; `notes.Constructor` too, since the extension is lower-cased first | every extension the table does not list yields "other" | not executed | FileTypes.FileTypeAsWritten, FileTypes.InheritedKeyCounterexample | FileTypes.GetFileType |
