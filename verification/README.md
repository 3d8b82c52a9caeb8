# you-judge: a Dafny model of video ingestion, OAuth accounts and the dashboard

you-judge is a Django application on App Engine. Users sign in with Google
OAuth, create projects, search YouTube for videos, add them to a project, and
have each video's comments imported for sentiment analysis. This project
models the decision logic at its core as pure Dafny functions over immutable
stores and proves properties about them:

- **Video ingestion** (`VideoSignals`, `VideoModels`, `VideoTasks`, `SentimentTag`)
  - The post-save receiver defers the comment import only when a Video is created.
  - The comment-import task exits early when the video is missing or the client raises. Otherwise it projects each comment thread into one `VideoComment`.
  - The completeness predicates and the model defaults.
  - The Meta orderings, as a sort (`Listing`) that lists video and comment querysets in the order the datastore returns them.
  - The three-way sentiment label.
- **Accounts** (`RetryUtils`, `AccountModels`, `AuthBackend`, `OauthViews`)
  - `do_with_retry`.
  - The `CharOrNoneField` pre-save rule.
  - Token validity, `reset_tokens`, the decision skeleton of `refresh_tokens`, and `is_authenticated`.
  - The OAuth authentication backend as a state machine over the user table.
  - Flow selection and the redirect decisions of the two OAuth views.
- **Dashboard** (`DashboardViews`)
  - Owner-scoped querysets, the project detail page's video list and the video comment page.
  - The search-result filter, with its pop-while-enumerating behaviour, and the formset projection.
  - The video-add loop over ticked forms.

Stores are values:
- Videos are a `map<Pk, Video>` with a counter for the next primary key.
- Comments are a `seq<VideoComment>` in creation order.
- Users are a `seq<User>`, where the pk is the index.
- Projects are a `map<Pk, Project>`.

A deferred task is a record `(task, pk, queue)`. Each operation returns the new store, the tasks it deferred and its result.

Calls into code outside the model are parameters:
- the YouTube client's answer (`fetch`);
- `BaseUserManager.normalize_email` (`normalize`);
- `is_safe_url` (`isSafe`);
- the OAuth flow's authorize URL and code exchange;
- the authentication backends as seen by the views;
- the function retried by `do_with_retry`, given as the outcome of its n-th call;
- the clock (`now`, an integer timestamp).

## Model

| member | source | states |
|---|---|---|
| VideoSignals.ImportYoutubeComments | videos/signals.py:10-17 | a save defers exactly one task iff `created` is true, and none when it is false or absent; that task is the comment import for the saved pk on queue "youtube" |
| VideoSignals.DeferredMatchesCreations | videos/signals.py:15-17 | over any sequence of saves, the deferred tasks correspond one-to-one and in order to the creating saves, each carrying that save's pk |
| VideoModels.CompletenessNeedsNonEmptyAnalysis | videos/models.py:38-42 | a video's analysis is complete iff the analysed transcript is truthy; None and an empty object both count as incomplete, and the same holds for a comment's analysed comment |
| VideoModels.AnalysisComplete | videos/models.py:38-42 | `analysis_complete`: the analysed transcript is truthy (see CompletenessNeedsNonEmptyAnalysis for what that excludes) |
| VideoModels.CommentComplete | videos/models.py:89-96 | `VideoComment.analysis_complete`: the analysed comment is truthy |
| VideoModels.CanBeAnalyzed | videos/models.py:44-51 | `can_be_analyzed`: the transcript is non-empty |
| VideoModels.AnalysabilityFollowsTranscript | videos/models.py:44-51 | a created video cannot be analysed; creating a video or re-saving one with the same transcript (a new analysis or failure flag, say) leaves every stored video's analysability as it was |
| VideoModels.NewVideo | videos/models.py:15-33 | a new Video stores the given owner, project, YouTube id, name, description, published date, three thumbnails and given counts; every other field takes its default: sentiment and magnitude 0, `transcript_failed` false, no analysis, no transcript, 0 for a count not given |
| VideoModels.VideoOrderingIsTotalPreorder | videos/models.py:63-64 | the video ordering (published, newest first) compares any two videos and is transitive, so a listing in it exists |
| VideoModels.CommentOrderingIsTotalPreorder | videos/models.py:98-99 | the comment ordering (updated, then published, newest first) compares any two comments and is transitive |
| Listing.SortByListed | videos/models.py:63-64 | sorting by a total preorder yields a listing in which every record may precede every later one |
| VideoModels.ListVideos | videos/models.py:63-64 | a video queryset in its default order holds the same videos, each published no earlier than the next |
| VideoModels.ListComments | videos/models.py:98-99 | a comment queryset in its default order holds the same comments, most recently updated first, ties by most recently published |
| VideoModels.ListedHeadIsLatest | videos/models.py:98-99 | in a comment listing, the head has the latest `updated`, and among equals the latest `published` |
| VideoModels.CommentAnalysisComplete | videos/models.py:53-61 | true iff every comment of the video is analysis-complete, hence vacuously true with no comments |
| VideoModels.SaveVideo | videos/models.py:103-105 | every save is routed through the receiver: it defers the import exactly when the pk was not stored before, stores the instance, and leaves other videos and all comments unchanged |
| VideoModels.CreateVideo | videos/models.py:103-105 | `objects.create` stores the new video under a fresh pk and defers exactly one comment import for that pk |
| VideoModels.SaveDefersOnlyOnCreation | videos/models.py:103-105 | re-saving a stored video defers nothing; saving a new one defers one task |
| VideoTasks.CommentFor | videos/tasks.py:29-41 | each comment is linked to the video and takes its id from the top-level comment, not the thread; author, image, raw and rich text and the two dates are taken from the top-level snippet; analysis starts incomplete |
| VideoTasks.ThreadsOf | videos/tasks.py:28 | `if comments:`: a client result of None or an empty list imports no thread; otherwise every returned thread is imported |
| VideoTasks.YoutubeImportComments | videos/tasks.py:10-42 | the video is never modified and existing comments stay a prefix; a missing video exits iff the pk is absent, and a client failure exits iff the client raised; both early exits leave the store unchanged; otherwise exactly the projected threads are appended |
| VideoTasks.ImportProjectsEachThread | videos/tasks.py:28-41 | for n returned threads, exactly n comments are appended in thread order, each linked to the video and carrying the top-level comment's id and texts |
| VideoTasks.ImportCreatesNothingOnEarlyExit | videos/tasks.py:15-28 | a missing video, a client exception, or a None or empty result creates nothing |
| VideoTasks.ImportKeepsAnalysability | videos/tasks.py:10-41 | the comment import writes comment rows only, so no stored video's analysability changes on any exit |
| VideoTasks.RerunDuplicatesComments | videos/tasks.py:28-41 | with no de-duplication, running the task twice on the same client result appends the same rows twice and leaves duplicate comments |
| SentimentTag.SentimentDisplay | videos/templatetags/sentiment.py:7-18 | None maps to None, and every score maps to exactly one of the three labels |
| SentimentTag.LabelBySign | videos/templatetags/sentiment.py:13-17 | 'Negative' iff below 0, 'Neutral' iff exactly 0, 'Positive' iff above 0 |
| SentimentTag.LabelMonotone | videos/templatetags/sentiment.py:13-17 | the label is monotone in the score: Negative < Neutral < Positive |
| RetryUtils.Forwarded | accounts/utils.py:19-21 | `_catch` and `_attempts` are popped and never forwarded; every other keyword argument is passed on unchanged |
| RetryUtils.DoWithRetry | accounts/utils.py:11-33 | func is called at most `_attempts` times (default 3, default catch the two transaction errors); the first success returns at once; an uncaught exception propagates on its first occurrence; a caught one is retried while attempts remain and re-raised after the last; one wait follows each caught failure, the last included; with no attempts at all, the bare `raise` has nothing to re-raise |
| AccountModels.CharOrNone | accounts/models.py:24-28 | a falsy value (None or "") is stored as None; any other value is stored unchanged |
| AccountModels.CharOrNoneIdempotent | accounts/models.py:24-28 | applying the pre-save rule twice is the same as once |
| AccountModels.Stored | accounts/models.py:36-37 | saving a user never stores "" as the oauth id and changes nothing else |
| AccountModels.TokensAreValid | accounts/models.py:80-89 | `_oauth_tokens_are_valid`: both tokens non-empty, an expiry set, and the expiry strictly after now |
| AccountModels.TokensExpire | accounts/models.py:80-89 | validity needs both tokens and an expiry, only runs out with time, and fails at the expiry itself |
| AccountModels.ResetTokens | accounts/models.py:91-94 | both tokens become "" on the instance and in the stored row; no other field changes |
| AccountModels.ResetTokensLogsOut | accounts/models.py:80-94 | after a reset the stored tokens are invalid and there is no refresh token left to refresh with |
| AccountModels.RefreshTokens | accounts/models.py:45-78 | no change if the stored tokens are valid or the refresh errors; otherwise the access token and expiry are written only when the new token differs; the refresh token is never touched |
| AccountModels.IsAuthenticated | accounts/models.py:80-117 | valid tokens mean true with no refresh attempt; an empty refresh token means false with no attempt; otherwise it refreshes through the retry helper (at most 3 attempts on TransactionFailedError) and answers token validity afterwards, or false after contention on every attempt |
| AuthBackend.GetUserValuesToStore | accounts/backends.py:120-140 | email is the normalised email; first, last and full name and picture are taken from the user info with '' as default; tokens and expiry come from the credentials; last login is now |
| AuthBackend.MissingProfileFieldsDefaultEmpty | accounts/backends.py:132-135 | missing given_name, family_name, name and picture become '' in the values to store, and so on whichever row `authenticate` returns: updated, claimed or created |
| AuthBackend.NewUser | accounts/backends.py:85-94 | `User.objects.create(username=None, oauth_user_id=id, password=make_password(None), **user_values)`: no username, an unusable password, the oauth id, and every stored value (email, names, picture, last login, tokens, expiry) |
| AuthBackend.GetByOauthId | accounts/backends.py:34-37 | `objects.get(oauth_user_id=…)`: DoesNotExist iff no user has the id; a found user has it; MultipleObjectsReturned only when two users do |
| AuthBackend.GetByEmail | accounts/backends.py:65-68 | `objects.get(email=…)`, with the same three outcomes keyed by email |
| AuthBackend.Authenticate | accounts/backends.py:18-99 | a returned user exists in the table afterwards; at most one user is created; an authentication that returns no user leaves the table unchanged |
| AuthBackend.NoCredentialsNoUser | accounts/backends.py:24-30 | None credentials or falsy user info give no user and leave the table untouched |
| AuthBackend.OauthMatchUpdatesThatUser | accounts/backends.py:34-46 | the user already holding the oauth id is updated with the new values and returned, and the user count is unchanged |
| AuthBackend.CreateUnknownDisabledRefuses | accounts/backends.py:48-50 | with no oauth match and create-unknown disabled, there is no user and nothing is created |
| AuthBackend.PreCreatedUserIsClaimed | accounts/backends.py:69-79 | an email match without an oauth id is claimed: the stored row is that user with the oauth id, the normalised email and every value of `get_user_values_to_store` (names, picture, tokens, expiry, last login); it is returned and no user is created |
| AuthBackend.ConflictingEmailIsWipedAndNewUserCreated | accounts/backends.py:80-87 | an email match holding another oauth id has its email wiped to ''; a new user carrying the oauth id and every value of `get_user_values_to_store` is appended and returned; no other row changes |
| AuthBackend.UnknownUserIsCreated | accounts/backends.py:88-94 | with neither an oauth nor an email match, a new user carrying the oauth id and every value of `get_user_values_to_store` is appended and returned |
| AuthBackend.AuthenticateKeepsOauthIdsUnique | accounts/backends.py:34-94 | authenticate never gives two users the same oauth id, which keeps the field's uniqueness (accounts/models.py:36-37) |
| OauthViews.FlowName | accounts/views.py:17-18 | the flow name is the query's non-empty 'flow', else the session's value, else 'default' |
| OauthViews.GetFlow | accounts/views.py:11-31 | the chosen name is written back to the session; the flow kwargs are the named flow's if it is known and non-empty, else the 'default' flow's, with this host's redirect URI; a KeyError iff the fallback is needed and 'default' is missing |
| OauthViews.UnknownFlowFallsBackToDefault | accounts/views.py:20-21 | an unknown or empty flow takes the 'default' flow's kwargs, and its own name is still kept in the session |
| OauthViews.StepOne | accounts/views.py:40-53 | step one logs nobody in; it stores the 'next' URL in the session only when one is given, and otherwise leaves that session key as it was; it redirects to the authorize URL of the chosen flow with the query's state, and fails only when the flow lookup raises KeyError |
| OauthViews.StepTwo | accounts/views.py:56-83 | when the code exchanges and a backend returns a user, that user is logged in; a login happens only then; any path without a login redirects to LOGIN_URL with the retry message; after a login it pops the continue URL from the session and redirects there if it is non-empty and safe, else to LOGIN_REDIRECT_URL |
| OauthViews.StepTwoLogsUserIn | accounts/views.py:69-83 | with no continue URL in the session, a successful exchange whose credentials a backend accepts logs that user in and redirects to LOGIN_REDIRECT_URL with no message |
| OauthViews.ExchangeErrorRedirectsToLogin | accounts/views.py:60-67 | when exchanging this request's code fails, the view redirects to LOGIN_URL with the error message, and nobody is logged in |
| OauthViews.NoUserRedirectsToLogin | accounts/views.py:69-74 | when no backend accepts this request's exchanged credentials, the view redirects to LOGIN_URL with the retry message and nobody is logged in |
| OauthViews.StepOneThenStepTwo | accounts/views.py:40-83 | a continue URL and flow given to step one are remembered, so that step two uses the same flow, logs the user in, and redirects to the URL if it is safe, else to LOGIN_REDIRECT_URL |
| DashboardViews.OwnedProjects | dashboard/views.py:39-41 | the dashboard lists exactly the projects owned by the requesting user |
| DashboardViews.GetOwnedProject | dashboard/views.py:159-160 | `get_object_or_404(Project, pk=…, owner=user)` finds a project only if it exists and belongs to the user |
| DashboardViews.OwnedProjectFoundIffListed | dashboard/views.py:115-116 | a project is found iff it is listed for the user, and another user gets a 404 for it |
| DashboardViews.OwnedVideos | dashboard/views.py:190-193 | the video queryset holds exactly the videos of the project owned by the user |
| DashboardViews.ProjectVideos | dashboard/views.py:91-100 | the project detail page 404s unless the user owns the project; it lists the project's stored videos, each exactly once per pk holding it (the same multiset), newest publication first |
| DashboardViews.CommentsOf | dashboard/views.py:200-202 | the comment queryset holds exactly the video's comments, each as often as it is stored |
| DashboardViews.VideoCommentList | dashboard/views.py:196-211 | the comment page 404s unless the user owns the project and the video belongs to it; it lists exactly the video's comments in the comment ordering |
| DashboardViews.CommentPageStartsWithLatest | dashboard/views.py:196-211 | a non-empty comment page starts with the video's most recently updated comment |
| DashboardViews.ExistingIds | dashboard/views.py:118-119 | the existing ids are exactly the YouTube ids of the project's videos |
| DashboardViews.SkipFilter | dashboard/views.py:122-125 | the results the removal loop leaves, as written: a result already in the project is dropped and the result after it is kept unexamined |
| DashboardViews.RemoveExistingResults | dashboard/views.py:122-125 | the pop-while-enumerating loop computes the skipping filter, in which the element after each removed one is never examined |
| DashboardViews.SkipFilterIsSubsequence | dashboard/views.py:122-125 | the filtered results are a subsequence of the search results, in the same order |
| DashboardViews.SkipFilterKeepsNewResults | dashboard/views.py:118-125 | every result not already in the project is kept: dropping the existing ones from the filtered list gives the same as dropping them from the input |
| DashboardViews.SkipFilterCleanIffNoAdjacent | dashboard/views.py:122-125 | no already-added result survives iff no two already-added results are adjacent in the input |
| DashboardViews.AdjacentExistingResultSurvives | dashboard/views.py:122-125 | two adjacent already-added results: the second survives the filter |
| DashboardViews.DropExisting | dashboard/views.py:122-125 | the intended filter keeps exactly the results not in the project, each of which it keeps, and no others |
| DashboardViews.DropExistingAgreesWithoutNeighbours | dashboard/views.py:122-125 | the intended filter is an order-preserving subsequence, and it agrees with the loop when no two already-added results are adjacent |
| DashboardViews.CountOf | dashboard/views.py:141-143 | a count is the API's value under its own key when present, and defaults to 0 only when that key is missing |
| DashboardViews.FormsetInitial | dashboard/views.py:128-146 | one initial row per remaining result, in order, carrying that result's id, title, publication date, description and three thumbnails, and its like, dislike and comment counts read from their own keys with 0 as default |
| DashboardViews.SearchContext | dashboard/views.py:113-147 | 404 iff the project is not the user's; otherwise the rows are the projection of exactly the results the removal loop leaves, in order; at most as many rows as results; every result not in the project has a row; no row repeats a project video iff no two already-added results are adjacent |
| DashboardViews.FormsetCoversNewResults | dashboard/views.py:118-146 | every search result not already in the project gets a formset row with its id |
| DashboardViews.FormsetCleanIffNoAdjacent | dashboard/views.py:118-146 | the formset offers no video already in the project iff no two such results were adjacent in the search results |
| DashboardViews.SearchContextAsIntendedWithoutNeighbours | dashboard/views.py:118-146 | when no two already-added results are adjacent, the formset is exactly the projection of the results not in the project |
| DashboardViews.FirstMissing | dashboard/views.py:166-178 | the KeyError raised names the first key, in the order `create` reads them, that is missing from the cleaned data: every key read before it is present; there is none iff all are present |
| DashboardViews.InfoFrom | dashboard/views.py:166-178 | the create kwargs are read field by field from the cleaned data: YouTube id, name, published, description, three thumbnails, likes, dislikes and comment count |
| DashboardViews.AddForms | dashboard/views.py:164-178 | the loop only adds videos, each owned by the user and in the project; each deferred import is for a distinct newly created video, one per video; existing videos and comments are untouched; it ends with a redirect or a KeyError |
| DashboardViews.AddFormsDefersCommentImports | dashboard/views.py:166-178 | every task deferred by the add loop is the comment import on queue "youtube" |
| DashboardViews.AddFormsCreatesTicked | dashboard/views.py:164-180 | when the ticked forms are complete, exactly one video is created per ticked form, in form order, equal to the Video built from that form's cleaned data (counts included), each with its own import, and the view redirects to the project |
| DashboardViews.TickedVideos | dashboard/views.py:166-178 | the Videos the ticked forms describe, in form order, each owned by the user and in the project, at most one per form |
| DashboardViews.VideoAdd | dashboard/views.py:153-180 | 404 iff the project is not the user's; an invalid formset creates nothing and redirects to the project; each deferred import is for a distinct newly stored video, one per created video |
| DashboardViews.TickedFormsCreateVideos | dashboard/views.py:159-180 | with an owned project and a valid formset whose ticked forms carry every key read, one video per ticked form is created, in form order, equal to the Video built from that form's cleaned data (name, description, date, thumbnails and counts), each with its own import; existing videos are unchanged, and the response redirects to the project |
| DashboardViews.TickedFormMissingKeyRaises | dashboard/views.py:166-178 | for any valid formset of the video form as declared, the view raises KeyError('likes') iff some form is ticked, and creates and defers nothing |
| DashboardViews.VideoFormLacksLikes | videos/forms.py:12-29 | the video form declares no likes field, so creating from its cleaned data fails at 'likes', the first key read that it lacks |
| DashboardViews.AddFormsRaisesAtFirstTicked | dashboard/views.py:164-178 | over the declared video form, the loop stops at the first ticked form with KeyError('likes'), before any create; it redirects iff no form is ticked |

## Left out

- The YouTube, Cloud Natural Language and Google user-info clients (`get_user_info` included) are network wrappers. Their answers are parameters.
- The App Engine `deferred` queue and Django's signal dispatch are represented by a returned list of `(task, pk, queue)` records.
- Date parsing (`dateutil`, `strptime`), pytz localisation and `timezone.now()` are out; timestamps are integers supplied by the caller.
- Sentiment scores are exact reals, with no IEEE floating point.
- The backoff sleep in `do_with_retry` uses random numbers and the wall clock, so only the number of waits is counted.
- The lock and transactions in `refresh_tokens` and the IntegrityError race branch of `authenticate` (accounts/backends.py:95-99) are concurrency; the model is sequential.
- `normalize_email`, `is_safe_url`, `make_password` and `get_object_or_404` are uninterpreted parameters or lookups.
- Python exception classes are matched by name in `do_with_retry`; subclass matching is not modelled.
- Exceptions are named only on the paths the model follows. KeyErrors from malformed thread dicts in the import task, and from malformed search results, are not modelled.
- `_get_flow` builds the flow through `do_with_retry` with `_attempts=5` and catches `FlowExchangeError`. The model takes the constructed flow as given and represents it by its keyword arguments.
- The mutation of the settings dict by `_get_flow` (it writes `redirect_uri` into the shared flow kwargs) is not modelled.
- `auth.login`'s own session effects are not modelled; a login is recorded as the user's pk in the result.
- OauthViews.StepTwo: `auth.login` flushes the session when a different user was logged in on it, so the pop of the continue URL at accounts/views.py:78-79 then finds nothing and the view goes to LOGIN_REDIRECT_URL; the model has no previously logged-in user and always reads the continue URL from the flow's session.
- `email_lower`, djangae's computed lower-case email, is not modelled; the wiped user's email becomes ''.
- Form validation is out. `cleaned_data` is an abstract map whose values are typed as the form fields would type them; `VideoFormCleaned` says which keys the declared video form yields.
- DashboardViews.AddFormsCreatesTicked: requires every ticked form to carry likes, dislikes and comment_count, which the declared video form never does; it describes the add loop as evidently intended (see Findings).
- DashboardViews.TickedFormsCreateVideos: the same `Complete` premise never holds for the declared video form, so this is the intended behaviour, not what the view does today (see Findings).
- `youtube_import_transcript` and `cloudnlp_analyze_transcript` do not exist in videos/tasks.py, and the comment import defers no analysis task. The model follows the code.
- AuthBackend.Authenticate: when `objects.get` finds several users it raises MultipleObjectsReturned. The model returns that outcome as an error with the table unchanged, and the branch lemmas assume unique emails where they need a single match.
- AccountModels.IsAuthenticated: each refresh attempt either hits transaction contention or completes, so an exception other than TransactionFailedError escaping `refresh_tokens` (a transport error from `credentials.refresh`, say), which the source propagates out of `is_authenticated`, cannot be expressed; the re-read of the row inside the lock is not modelled separately either.
- `improve_queryset_consistency` is a datastore consistency hint; the modelled querysets are already exact. The detail page's search form and the template context objects other than the listed videos and comments are not modelled.
- Project creation and update views, templates, chart tags, URL configuration and settings are outside the modelled core.

## Findings

| source | as written | input that shows it | evidently intended | confidence | as-written member | corrected member |
|---|---|---|---|---|---|---|
| dashboard/views.py:122-125 | `results.pop(i)` inside `for i, r in enumerate(results)` shifts the next result into slot i, and the enumeration moves past it unexamined | two adjacent results whose ids are both already in the project: the second is kept and offered again | drop every result already in the project | not executed | DashboardViews.AdjacentExistingResultSurvives | DashboardViews.DropExistingAgreesWithoutNeighbours |
| dashboard/views.py:176-178 | `Video.objects.create(..., likes=form.cleaned_data['likes'], ...)` reads keys `YouTubeVideoForm` (videos/forms.py:12-29) does not declare, so they are never in `cleaned_data` | a valid formset with one ticked form: KeyError('likes') is raised and no Video is created | create one Video per ticked form, with its counts | not executed | DashboardViews.TickedFormMissingKeyRaises | DashboardViews.TickedFormsCreateVideos |
