# Jira → GitLab migration engine, modelled in Dafny

This project models the migration engine of `cmd/migrate/project.go`. The engine reads one
Jira project into an in-memory snapshot: its issues, their comments, their staged attachments
and the users involved. It then replays the snapshot into GitLab. That means finding or creating
the GitLab project, provisioning the users, and recreating every issue with its comments,
attachments and closed state.

Both trackers are oracles:

- **Jira** (`Jira.Site`) is read-only, so it is a value. It holds the project's issues in search
  order, a per-offset search-failure flag, and the answers of `Issue.Get`, `User.Find` and
  `DownloadAttachment`. The local staging disk (`Jira.Disk`) is a value too. It says which
  staged paths cannot be created and which copies fail.
- **GitLab** (`Gitlab.Server`) gives, for each endpoint, the reply to the request at each
  position of the run's GitLab call log. The run is deterministic, so the position determines the
  request. A retried request can therefore get a different reply. The run's effect on GitLab is
  the call log plus the package-level user cache (`Gitlab.World`).

The write phase is specified by functions over `World`. The imperative code is modelled by
methods of `Gitlab.Session` (the client and the cache), of `Driver.Project` (the project whose
fields the code updates), and by loop methods in the other modules. Every write-phase method is
proved equal to its specification function, and the properties are proved about those
functions. `Driver.FetchProject` instead states its outcome directly, in terms of the Jira
oracle.

Modules: `Common` (Option/Result/Outcome), `Markup` (translateText), `Jira` (the source
instance), `Snapshot` (fetchProject, getComments, getAttachements, containsUser, jiraGetUser,
PopulateUsers' visiting order), `Gitlab` (destination instance, call log, gitlabUserGet),
`Provision` (Users.Create, User.Create, gitlabAddUserToProjectAsMaster), `Replay` (Issue.Create,
MigrateIssues), `Driver` (the `Project` class: PopulateUsers, getPID, MigrateProject,
MigrateIssues, and fetchProject).

Behaviour of the code that the model reproduces as written:

- **Issue creation attempts.** `retry` is 3, but `Issue.Create` increments `rc` twice per
  failed attempt and returns only when `rc` equals 3 right after a failure. So at most two
  attempts are made (`Replay.AttemptsAtMostTwo`), and the second failure's error is returned.
- **Failed issue fetch.** A failed `Issue.Get` in fetchProject is logged and counted, and the
  code then dereferences the nil issue. The model ends the run with a panic
  (`Snapshot.Halt.Panic`).
- **Skipped users.** `Users.Create` skips `admin` and `root`. `User.Create` skips the empty
  username.
- **Cache key.** The GitLab user cache is keyed by the username GitLab returns, not by the
  searched string, so a fuzzy search hit is searched again next time (`Gitlab.LookupFuzzyMiss`).
- **Comment author.** Comments are posted with sudo set to the issue's creator, not the
  comment's author.
- **Ignored search errors.** An error from the project search counts as "no project", so the
  project is created. An error from the issue title search counts as "no hit".
- **Duplicate users.** `containsUser` compares the searched id with the Username Jira returns,
  so a fuzzy Jira hit is appended once per visit (`Snapshot.VisitFuzzyRepeat`).

## Model

| member | source | states |
|---|---|---|
| Markup.TranslateText | cmd/migrate/project.go:804-818 | for every iteration order of the five-entry table (any permutation), the loop of ReplaceAll calls yields the one-pass translation `Translate(t)` |
| Markup.TranslateOrderIndependent | cmd/migrate/project.go:805-815 | applying the five replacements in any order gives the same text |
| Markup.ApplyIsScan | cmd/migrate/project.go:813-815 | for a table whose patterns start with `{`/`[` and whose replacements are fences, sequential ReplaceAll equals one left-to-right pass |
| Markup.TranslateIdempotent | cmd/migrate/project.go:804-818 | translating a translated text changes nothing |
| Markup.NoDelimiterLeft | cmd/migrate/project.go:804-818 | no occurrence of any of the five delimiters remains anywhere in the result |
| Markup.TranslatePlain | cmd/migrate/project.go:804-818 | text without `{` or `[` is left unchanged |
| Markup.TableShape | cmd/migrate/project.go:805-811 | every pattern opens with `{`/`[`, every replacement is a backtick fence, and no pattern is a prefix of another |
| Markup.FirstMatch | cmd/migrate/project.go:805-811 | the rule found is in the table and starts the text; no rule starts it when none is found |
| Jira.SearchPage | cmd/migrate/project.go:153-157 | a page has at most 1000 issues; it is the full slice at that offset when the project has enough issues, and short otherwise |
| Snapshot.SearchAll | cmd/migrate/project.go:141-180 | offsets 0, 1000, 2000, … are requested in order; it stops at the first short page or the first failed search; it fails exactly when one of the offsets 0, 1000, … up to the project's size fails; on success the issues are all the project's issues in order, after ⌊n/1000⌋+1 requests |
| Snapshot.GetComments | cmd/migrate/project.go:250-272 | the comments are the Jira comments' (Body, Author) pairs, same length, same order |
| Snapshot.StagedPrefixShape | cmd/migrate/project.go:281-318 | the staged attachments are, in order, the (staged path, author) of the attachments before the first failed download, create or copy, and the next one failed |
| Snapshot.GetAttachments | cmd/migrate/project.go:274-323 | the loop with its three breaks yields exactly `StagedPrefix` |
| Snapshot.TitleRoundTrip | cmd/migrate/project.go:224 | the title `key:summary` splits back into key and summary when the key has no colon |
| Snapshot.CreatorMapping | cmd/migrate/project.go:221-235 | creator `admin` becomes `root`, others are kept; labels are `["To Do"]`; the title is key, colon, summary |
| Snapshot.BuildIssues | cmd/migrate/project.go:201-238 | succeeds iff every detail fetch succeeds; then the snapshot has one issue per listed issue, each built from its detail, comments and staged attachments |
| Snapshot.Known | cmd/migrate/project.go:374-382 | true iff some entry's Username equals the name exactly |
| Snapshot.ContainsUser | cmd/migrate/project.go:374-382 | the loop answers `Known` |
| Snapshot.JiraGetUser | cmd/migrate/project.go:385-414 | a lookup error is an error; a result count other than one gives the empty User with no error; one result gives its email, name and display name |
| Snapshot.CollectExtends | cmd/migrate/project.go:326-371 | PopulateUsers only appends, at most one user per visited id |
| Snapshot.CollectFromLookups | cmd/migrate/project.go:337-342 | every appended user is the lookup result of a visited id |
| Snapshot.CollectCovers | cmd/migrate/project.go:326-371 | every visited id whose Jira search finds exactly the user of that name ends up in the list |
| Snapshot.CollectDistinct | cmd/migrate/project.go:326-371 | when Jira's single hits are exact, non-empty usernames in the list are distinct |
| Snapshot.VisitKeeps | cmd/migrate/project.go:337-342 | an id already present, or whose lookup fails, appends nothing |
| Snapshot.VisitAmbiguous | cmd/migrate/project.go:401-405 | a lookup with zero or several results appends the empty user |
| Snapshot.VisitFuzzyRepeat | cmd/migrate/project.go:337-342 | a single Jira hit whose name differs from the searched id leaves the id unknown, so a second visit appends the same user again |
| Gitlab.Lookup | cmd/migrate/project.go:547-590 | a cached name is answered with no request; otherwise one user search is sent; only a search with exactly one result yields a user, which is cached under its own username; otherwise the cache is unchanged |
| Gitlab.LookupKeepsCache | cmd/migrate/project.go:584 | the cache stays keyed by username, every other entry is kept, and the call log only grows |
| Gitlab.LookupRepeat | cmd/migrate/project.go:551-556 | a user found under the searched name is answered from the cache the next time |
| Gitlab.LookupFuzzyMiss | cmd/migrate/project.go:563-584 | a single hit with a different username leaves the searched name uncached, so the next lookup searches again |
| Gitlab.Session.UserGet | cmd/migrate/project.go:547-590 | the reply and the new log and cache are those of `Lookup` |
| Provision.AddMember | cmd/migrate/project.go:592-618 | one AddProjectMember request with Master access; it fails iff the status is not 409 and there is an error, and the failure is "unable to add user to project" |
| Provision.CreateOneCalls | cmd/migrate/project.go:488-545 | User.Create sends at most three requests: the search for its username, its account (password "dummy12345", admin) and a Master membership in the project; an empty username sends nothing |
| Provision.CreateOneMember | cmd/migrate/project.go:530-541 | a successful User.Create of a named user ends with exactly one membership request |
| Provision.CreateOneRequests | cmd/migrate/project.go:500-541 | after the lookup of a named user: when GitLab has none, `CreateUser(Account(u))` is sent, and a creation error is returned with nothing more sent; otherwise the membership request carries the created account's id, or the found user's id when the lookup found one |
| Provision.CreateAllSkips | cmd/migrate/project.go:473-479 | a list of only admin, root or unnamed users sends nothing and succeeds |
| Provision.CreateAllMembers | cmd/migrate/project.go:468-485 | a successful Users.Create sends exactly one membership request per named user other than admin and root |
| Provision.CreateAllAccounts | cmd/migrate/project.go:468-545 | every account Users.Create requests has password "dummy12345" and admin rights, belongs to a listed user, and is never for admin, root or the empty name |
| Provision.CreateAllFirstError | cmd/migrate/project.go:473-479 | a failed Users.Create stopped at a non-skipped user reached after all earlier users went through; its User.Create error and requests are the result, and nothing is sent for later users |
| Provision.AddUserToProjectAsMaster | cmd/migrate/project.go:592-618 | equals `AddMember` |
| Provision.ProvisionUser | cmd/migrate/project.go:488-545 | equals `CreateOne`, whose requests and error are fixed by `CreateOneRequests` |
| Provision.ProvisionUsers | cmd/migrate/project.go:468-485 | equals `CreateAll`, which skips admin and root (`CreateAllSkips`) and stops at and returns the first error (`CreateAllFirstError`) |
| Replay.AttemptsAtMostTwo | cmd/migrate/project.go:706-739 | CreateIssue is sent once when it succeeds, otherwise exactly twice, and the result is the second reply |
| Replay.Attempt | cmd/migrate/project.go:693-739 | after the lookups, CreateIssue is sent with the translated draft, `Prepare`'s assignee ids and sudo set to the possibly rewritten creator: once when it succeeds, otherwise twice, and the result is the last reply |
| Replay.Prepare | cmd/migrate/project.go:693-704 | the assignee ids are `[id]` of the user the assignee lookup found, or `[1]` when it found none; the creator becomes "1" when its lookup finds none and the issue is unchanged otherwise; at most two user searches |
| Replay.PostCommentsCalls | cmd/migrate/project.go:742-759 | comments are posted in order, translated, with sudo set to the issue creator; the loop succeeds iff every note succeeded; all comments are posted on success, up to and including the failing one otherwise, whose error is returned |
| Replay.PostAttachmentsCalls | cmd/migrate/project.go:762-786 | only uploads of staged files in order and notes on the issue without sudo; at most two requests per attachment |
| Replay.PostAttachmentsExact | cmd/migrate/project.go:762-786 | for some m, the first m attachments were each uploaded and linked by a note carrying that upload's Markdown, both successfully; then either all were posted, or the loop ended at attachment m after its failed upload or failed note |
| Replay.SkipOnTitleHit | cmd/migrate/project.go:684-691 | a title search with any hit sends nothing more and succeeds with the issue unchanged |
| Replay.CreatorRewrite | cmd/migrate/project.go:684-704 | the only change to the issue is the creator becoming "1": never after a title-search hit, otherwise exactly as `Prepare`'s creator lookup decides |
| Replay.CreateIssueOutcome | cmd/migrate/project.go:706-759 | after a title-search miss, Issue.Create fails iff both CreateIssue requests failed (with the second error) or a comment note failed (with that note's result) |
| Replay.FailureStopsEarly | cmd/migrate/project.go:706-759 | a failed issue (creation or comment) sends no upload and no status update |
| Replay.CompleteCloses | cmd/migrate/project.go:742-800 | after successful comments, exactly one "close" update is sent, as the last request, iff the status is not "Open" |
| Replay.CompleteOutcome | cmd/migrate/project.go:742-801 | the steps after creation fail iff a comment note failed, with that note's error and nothing sent after it; attachments and the status update never cause a failure |
| Replay.CloseUnlessOpen | cmd/migrate/project.go:789-801 | a successfully created issue gets one "close" update iff its status is not "Open" |
| Replay.TallyCounts | cmd/migrate/project.go:648-664 | every issue counts once (migrated + failed = number of issues); the dumped issues are, in order, exactly the rewritten issues whose Issue.Create failed; each run's issue is its input issue up to the creator |
| Replay.RerunSkipsAll | cmd/migrate/project.go:651-664 | when every title search hits, only the searches are sent and every issue counts as migrated |
| Replay.CreateWithRetry | cmd/migrate/project.go:706-739 | the retry loop equals `Attempts` |
| Replay.CompleteIssue | cmd/migrate/project.go:742-801 | the comment, attachment and close steps equal `Complete`, whose outcome is fixed by `CompleteOutcome` |
| Replay.CreateOneIssue | cmd/migrate/project.go:670-802 | Issue.Create's result, rewritten issue and GitLab effect equal `CreateIssueSpec`, whose outcome is fixed by `SkipOnTitleHit` and `CreateIssueOutcome` |
| Driver.LastMatch | cmd/migrate/project.go:630-634 | the id kept is the last listed project with exactly the name, or the old id when none has it |
| Driver.PidSpec | cmd/migrate/project.go:620-637 | one project listing; an error exits with status 1 and keeps the id; otherwise the id is `LastMatch` |
| Driver.MigrateProjectEndings | cmd/migrate/project.go:416-465 | the first request searches the project by name; exit 99 iff no project was found and creating it failed; several found ⇒ exit 1 with nothing else sent; only exits 1, 2, 99; a finished run counts every issue once |
| Driver.MigrateProjectExits | cmd/migrate/project.go:422-465 | the project is created iff the name search failed or found nothing; exit 1 iff it exists and several were found or the listing failed; exit 2 iff it exists, the listing succeeded and provisioning failed; otherwise the issues are migrated |
| Driver.AfterSearch | cmd/migrate/project.go:422-440 | the name search is sent, followed by a CreateProject request exactly when it failed or found nothing |
| Driver.Project.AddCreator | cmd/migrate/project.go:337-342 | one visit of PopulateUsers |
| Driver.Project.AddCreators | cmd/migrate/project.go:344-359 | the visits for a list of authors, in order |
| Driver.Project.PopulateUsers | cmd/migrate/project.go:326-371 | the users are `Collect` over creator, comment authors, attachment authors, issue by issue |
| Driver.Project.GetPID | cmd/migrate/project.go:620-637 | equals `PidSpec` |
| Driver.Project.MigrateIssues | cmd/migrate/project.go:642-667 | the counters and dumps equal `MigrateAll` |
| Driver.Project.MigrateProject | cmd/migrate/project.go:416-465 | equals `MigrateProjectSpec`, whose endings are fixed by `MigrateProjectEndings` and `MigrateProjectExits` |
| Driver.FetchProject | cmd/migrate/project.go:126-248 | exit 2 iff one of the pages it must request fails; a panic iff the search succeeded and some listed issue's detail fetch failed; otherwise the project has one snapshot issue per Jira issue, built from its detail, and the users collected from them |

## Left out

- Logging, progress bars, `fmt` output and the `time.Sleep` between create attempts have no
  effect on the model's state.
- Client construction (`utils.GetJiraClient`, `utils.GetGitlabClient`) and configuration are
  not modelled. The cobra command wiring in `cmd/root.go` and `cmd/migrate/migrate.go` is
  outside this model.
- The staging directory name is a parameter (`Disk.tmpDir`), because it comes from the clock.
  Closing the staged file, and its removal after upload (`os.Remove`, whose error is only
  logged), are not modelled.
- The quarantine dump of a failed issue (`utils.WriteToFile` of its JSON) is modelled only as
  the issue being recorded in `Tally.dumped`.
- The `limit` branches of the search loop are not modelled: `limit` is the constant 0, so those
  branches are dead code.
- A Jira server that ignores the requested page size is not modelled. `Jira.SearchPage`
  returns exactly the requested slice.
- Jira.SearchPage: the resp.StatusCode logged on a search error is not modelled. A nil
  response there would panic rather than exit.
- Provision.AddMember: a transport failure with no HTTP response is not modelled. The code
  reads `resp.StatusCode` first, so it would panic.
- Snapshot.BuildIssues: a nil assignee on a fetched issue is not modelled. The code
  dereferences it, so it would panic; the model reads the assignee's name as a plain field.
- Timestamps (`CreatedAt`) are plain integers.
- GitLab's project listing without options returns only the first page; the model gives getPID
  the whole list the server returns.
