# rust-slack-bot core in Dafny

A model of the pure logic inside a Cloudflare-worker relay between GitHub and Slack. The relay
does two jobs. A Slack slash command quoting an `owner/repo#number` reference is answered with a
message describing that issue. A GitHub webhook delivery about an issue or pull request is
forwarded to a Slack incoming webhook. The model has three parts, each with its I/O replaced by
inputs.

- **The reference extractor** (`GithubAdapter`, `github_adapter.dfy`). This is the capture loop
  of `fetch_issue`. It finds every match of
  `(?P<owner>[\w.-]*)/(?P<repo>[\w.-]*)#(?P<issue_number>\d*)` with the regex crate's
  leftmost-first, non-overlapping search. It overwrites the API URL on each match, so the last
  match wins, and with no match the URL stays empty. `/` and `#` lie outside `[\w.-]`, so a greedy
  run never gives characters back. One attempt is therefore "maximal name run, `/`, maximal name
  run, `#`, maximal digit run". The search is proved equal to an independent leftmost-scan
  characterisation.
- **The message formatter** (`CreatedAt`, `SlackAdapter`; `created_at.dfy`, `slack_adapter.dfy`).
  `issue_slack_message_text_lines` and `construct_gh_issue_slack_message` are modelled over one
  `TrackedItem` datatype whose `Issue` and `PullRequest` variants carry the same seven fields.
  The date step is modelled twice:
  - as written, against `%Y/%m/%d`;
  - as evidently intended, reading the tracker's `YYYY-MM-DDTHH:MM:SSZ` timestamps (the
    date-time format of section 5.6 of RFC 3339) and displaying them as `YYYY-MM-DD HH:MM:SS`.

  See "## Findings".
- **The request handlers** (`Routes`, `routes.dfy`). `lookup` and `webhook` are modelled as pure
  functions from what the worker hands them to an `Outcome`. The inputs are the body read or its
  error, the form decoder, the issue fetch, the message builder, the secret, and the dispatch.
  The outcomes are:
  - a plain response with a status and a body;
  - a JSON message;
  - an error propagated by `?`;
  - a panic from `unwrap`.

The records are in `github_model.dfy`, `slack_model.dfy` and `routes_model.dfy`. `results.dfy`
holds Rust's `Option` and `Result`. `strings.dfy` holds decimal digits, joining and splitting.

### Assumptions where the source mixes versions

`src/driver/routes.rs` calls `Slack.text_lines`, `construct_message`, `create_message`,
`send_message` and `GithubWebhookRequest::label`. None of these is in the files modelled here.

- `construct_message` is taken to be the shown `construct_gh_issue_slack_message`. It gives a
  one-block sequence, because the tests compare its result with `vec![Blocks {...}]`.
- `text_lines` is taken to be the shown `issue_slack_message_text_lines` with its date step
  corrected. The handlers (`Routes.Lookup`, `Routes.CreateMessageInTests`) are modelled over
  `SlackAdapter.TextLines`, not over `SlackAdapter.TextLinesAsWritten`. The route tests expect a
  rendered date (routes.rs:106); with the step as written every fetched item would abort
  (`SlackAdapter.AsWrittenRefusesWhatIntendedRenders`).
- For the webhook, the message builder and the dispatch are inputs. The item's label,
  `GithubWebhookRequest::label`, is an input function of the delivery.
  `Routes.CreateMessageInTests` is the builder as the route tests compose it
  (routes.rs:139-145), with the label read from the delivery through that function. The model
  uses it only in lemmas about those tests.
- The expected text at routes.rs:106 does not match the shown formatter in four ways:
  - It has `*...*` around the title line and the state. The shown format strings
    (slack.rs:15-16) have none, and the model follows them.
  - It has no leading line break. The shown join (slack.rs:18-25) always emits the prefix line,
    so the empty prefix `lookup` passes gives a text that starts with `\n`
    (`Routes.LookupAnswers`).
  - Its link caption is empty (`|>`). `lookup` passes the raw request body as the caption
    (routes.rs:35), and the model does the same, following slack.rs:11. The tests' raw body
    (routes.rs:96) holds no literal `/` or `#`, so the extractor gives `""` for it
    (`GithubAdapter.NoSlashNoMatch`, `GithubAdapter.PercentEncodedReference`). An unshown
    `text_lines` that captioned the link with the extractor's output would match `|>`.
  - The tests build items with `body: Some(..)` (routes.rs:89). The record declares `body:
    String` (domain/model/github.rs:7), and the model keeps a plain string.
- `\w` is taken over ASCII letters, digits and `_`, and `\d` over the ASCII digits. The regex
  crate's Unicode classes are not modelled.

## Model

| member | source | states |
|---|---|---|
| GithubAdapter.MatchAt | src/adapter/github.rs:12 | An attempt anchored at a position succeeds only there, and the match ends inside the text after at least `/` and `#`. |
| GithubAdapter.MatchAtSound | src/adapter/github.rs:12 | A successful attempt spans exactly `owner/repo#number` of its own captures. The owner and repo are drawn from `[\w.-]` and the number from digits. The digit run cannot be extended. |
| GithubAdapter.MatchesWellFormed | src/adapter/github.rs:12-16 | `GithubAdapter.MatchesFrom` is the model of `captures_iter`. Every match it yields lies in the text and spans the rendering of its valid captures. Successive matches do not overlap and come left to right. |
| GithubAdapter.LeftmostScanExactly | src/adapter/github.rs:16 | The matches of `GithubAdapter.MatchesFrom`, the model of `captures_iter`, are exactly the leftmost-first, non-overlapping scan. Each match is the first successful attempt since the previous one ended, and none succeeds after the last. This holds in both directions. |
| GithubAdapter.MatchesStartAtRuns | src/adapter/github.rs:12-16 | Each match starts where the search resumed or right after a character outside `[\w.-]`. |
| GithubAdapter.ApiUrl | src/adapter/github.rs:14-19 | The URL is empty exactly when the text holds no match. Otherwise it is the last match's URL. |
| GithubAdapter.FetchIssueUrl | src/adapter/github.rs:14-19 | The loop that starts from the empty string and overwrites the URL with every match ends with the last match's URL, or empty. |
| GithubAdapter.LastMatchWins | src/adapter/github.rs:16-19 | Across a boundary character, the URL is the later text's whenever that text holds a match, whatever precedes it. Otherwise it is the earlier text's. |
| GithubAdapter.CapturesConcat | src/adapter/github.rs:16 | Two texts joined by a character outside `[\w.-]`, `/` and `#` have the first text's matches followed by the second's. |
| GithubAdapter.RenderRoundTrip | src/adapter/github.rs:12-18 | A valid `owner/repo#number` on its own yields exactly one match with exactly those captures, and that capture's URL. |
| GithubAdapter.ApiUrlInjective | src/adapter/github.rs:18 | Two valid captures with the same URL are equal. |
| GithubAdapter.NoSlashNoMatch | src/adapter/github.rs:12-19 | Text without `/` has no match and gives the empty URL. |
| GithubAdapter.MatchesContainSlash | src/adapter/github.rs:12 | A text with any match contains `/`. |
| GithubAdapter.EmptyReference | src/adapter/github.rs:12-18 | `/#` is one match with three empty captures. |
| GithubAdapter.AdjacentReferences | src/adapter/github.rs:12-16 | Two references written back to back are both found, in order, unless the second begins with a digit. |
| GithubAdapter.BackToBackReferences | src/adapter/github.rs:16-19 | In `a/b#1c/d#2`, the second match starts inside the run `1c`, and it decides the URL. |
| GithubAdapter.PercentEncodedReference | src/driver/routes.rs:96 | The percent-encoded reference `cloudflare%2Fwrangler%231` has no match and gives the empty URL. |
| GithubAdapter.DecodedReference | src/adapter/github.rs:12-18 | The decoded reference `cloudflare/wrangler#1` names issue 1 of `cloudflare/wrangler`. |
| GithubAdapter.MatchesFromShift | src/adapter/github.rs:16 | Searching after any prefix yields the suffix's own matches, moved along by the prefix's length. |
| CreatedAt.ParseCreatedAt | src/adapter/slack.rs:13 | A timestamp is read exactly when it has the `YYYY-MM-DDTHH:MM:SSZ` layout. |
| CreatedAt.RenderDate | src/adapter/slack.rs:16 | The model of a naive date-time's display. For a four-digit year it is 19 characters with `-`, `-`, a space, `:` and `:` at the fixed separator positions. |
| CreatedAt.ReshapeCreatedAt | src/adapter/slack.rs:13-16 | A read timestamp is displayed as its date part, a space, and its time part, with the `T` and `Z` dropped. |
| CreatedAt.ParseFormatRoundTrip | src/adapter/slack.rs:13 | Reading a timestamp and writing it back gives the same characters. |
| CreatedAt.FormatParseRoundTrip | src/adapter/slack.rs:13 | Writing a date-time and reading it back gives the same fields. |
| CreatedAt.TestTimestamp | src/driver/routes.rs:106 | The tests' `2024-07-07T20:09:31Z` displays as `2024-07-07 20:09:31`. |
| CreatedAt.SetField | src/adapter/slack.rs:13 | A field read is recorded only when it is within its range and agrees with any earlier reading of it. No other field changes. |
| CreatedAt.ScanItems | src/adapter/slack.rs:13 | The model of the item loop behind `parse_from_str`. A successful scan keeps every field already filled and fills every field its format names. |
| CreatedAt.ScanLeavesUnnamed | src/adapter/slack.rs:13 | A scan leaves every field its format does not name as it was. `%Y/%m/%d` names no hour or minute. |
| CreatedAt.CompleteDateTime | src/adapter/slack.rs:13 | A date-time is completed only when the fields include an hour and a minute and the date is on the calendar. |
| CreatedAt.ParseSlashFormat | src/adapter/slack.rs:13 | The parse as written never yields a value. Whatever the scan of `%Y/%m/%d` accepts fails at completion, for want of a time of day or for a date off the calendar. |
| CreatedAt.SlashFormatRejectsRfc3339 | src/adapter/slack.rs:13 | Every timestamp in the tracker's layout is refused by the parse as written, because `-` follows the year where `/` is expected. |
| CreatedAt.SlashDateLacksTime | src/adapter/slack.rs:13 | A `YYYY/MM/DD` date on the calendar is read in full by the scan and then fails with `NotEnough`. |
| CreatedAt.TestTimestampAsWritten | src/adapter/slack.rs:13 | The tests' timestamp is refused by the parse as written and read by the intended one. |
| CreatedAt.SlashDateExample | src/adapter/slack.rs:13 | Even `2024/07/07`, the layout the format describes, fails with `NotEnough`. |
| SlackAdapter.TextLines | src/adapter/slack.rs:10-25 | Rendering fails, with no partial text, exactly when the timestamp does not read. Otherwise the text is the prefix, the title with a link to the item's `html_url` captioned with the caller's text, the body, and the state with its author link and date, joined by line breaks. |
| SlackAdapter.TextLinesSplit | src/adapter/slack.rs:18-25 | When no field holds a line break, splitting the text at line breaks gives back exactly the four lines. The first line is the prefix, even when the prefix is empty. |
| SlackAdapter.TextLinesNewlines | src/adapter/slack.rs:18-25 | The text holds exactly three line breaks beyond those of the fields it copies. |
| SlackAdapter.TextLinesLinks | src/adapter/slack.rs:11-16 | The item link points at `html_url` and carries the caller's text verbatim. The state line depends only on the state, the author and the timestamp. |
| SlackAdapter.TextLinesPrefix | src/adapter/slack.rs:18-25 | With a readable timestamp the prefix heads the text, and the rest of the text does not depend on it. |
| SlackAdapter.TextLinesPrefixInjective | src/adapter/slack.rs:18-25 | With a readable timestamp, two prefixes give the same text exactly when they are equal, whatever line breaks the fields hold. |
| SlackAdapter.TextLinesIgnoreKind | src/adapter/slack.rs:10-25 | The text is the same for an issue and a pull request with the same fields. |
| SlackAdapter.ConstructBlock | src/adapter/slack.rs:28-46 | The block is a `section` whose `mrkdwn` text is the lines unchanged. Its `image` accessory is the author's avatar, with the login as alternative text. |
| SlackAdapter.BlockDependsOnUserAndLines | src/adapter/slack.rs:28-46 | Two items give the same block exactly when their avatars and logins agree. An issue and a pull request with the same author give the same block. |
| SlackAdapter.BlockKeepsLines | src/adapter/slack.rs:32-37 | The block determines its lines: different lines give different blocks. |
| SlackAdapter.TextLinesAsWritten | src/adapter/slack.rs:10-25 | The formatter as written never produces text. On every tracker timestamp it fails with `Invalid`. |
| SlackAdapter.AsWrittenRefusesWhatIntendedRenders | src/adapter/slack.rs:13 | Every item with a tracker timestamp is rendered by the intended formatter and refused by the one as written. |
| Routes.Lookup | src/driver/routes.rs:15-45 | A read error is propagated as itself, and only that. 404 `Not found` comes exactly for the empty body. A panic comes only from an undecodable form or an unreadable timestamp, and a non-empty body that does not decode always panics. A 500 carries the failed fetch's error for the URL of the decoded text. A JSON answer is `in_channel` with one block. |
| Routes.LookupEmptyBody | src/driver/routes.rs:18-20 | The empty body is answered 404 whatever the decoder and the fetch would do. |
| Routes.LookupFormFails | src/driver/routes.rs:22 | A non-empty body that does not decode as a form panics, whatever the fetch would do. |
| Routes.LookupFetchesOneUrl | src/driver/routes.rs:22-27 | The fetch is consulted only at the URL built from the decoded `text`. |
| Routes.LookupFetchFails | src/driver/routes.rs:24-43 | A failed fetch is answered 500 with the error's debug form. |
| Routes.LookupAnswers | src/driver/routes.rs:30-41 | A fetched item is answered with one block built from its lines. The lines have an empty prefix, so they start with a line break, and the raw body is the link caption. |
| Routes.LookupUnreadableTimestamp | src/driver/routes.rs:35 | A fetched item whose timestamp does not read aborts the request. |
| Routes.Select | src/driver/routes.rs:50-54 | The delivery's item is the issue or the pull request when exactly one is present, and nothing otherwise. |
| Routes.Webhook | src/driver/routes.rs:47-67 | 400 `Unknown payload` comes exactly when the delivery has not exactly one item. 200 `OK` comes exactly when an item is selected, the message builds, the secret is present and the dispatch succeeds. Every 500 body starts with `Unable to handle webhook, message:`. A delivery that does not decode is propagated as its error. The request aborts exactly when an item is selected and the builder panics, and then with the builder's panic. |
| Routes.WebhookRejectsFirst | src/driver/routes.rs:50-57 | A delivery without exactly one item is rejected before the builder, the secret or the dispatch is consulted. |
| Routes.WebhookDecodeFails | src/driver/routes.rs:48 | A delivery that does not decode is propagated as its error, whatever the builder, the secret and the dispatch would do. |
| Routes.WebhookBuilderFails | src/driver/routes.rs:50-53 | A builder that panics aborts the request with that panic, whatever the secret and the dispatch would do. |
| Routes.WebhookMissingSecret | src/driver/routes.rs:56-57 | A missing secret is propagated whatever the dispatch would do. |
| Routes.WebhookDispatchFails | src/driver/routes.rs:61-65 | A failed dispatch is answered 500 with the fixed text followed by the error's debug form. |
| Routes.RouteTestMessageShape | src/driver/routes.rs:139-158 | `Routes.CreateMessageInTests` is the model of the builder the tests compose at routes.rs:139-145. With a readable timestamp it gives exactly the one block they expect. |
| Routes.WebhookPrefixInjective | src/driver/routes.rs:142 | Two first lines for the same action agree exactly when the labels read from the delivery agree. |
| Routes.LabelShowsInMessage | src/driver/routes.rs:139-145 | With a readable timestamp, two label functions give the same message exactly when they read the same label from the delivery. |
| Routes.IssueAndPullRequestAlike | src/driver/routes.rs:50-52 | For one delivery, the builder gives the same message for an issue and a pull request with the same fields. A delivery carrying the issue is answered as the same delivery carrying the pull request whenever the label reads the same from both. |
| Routes.WebhookReferenceRoundTrip | src/driver/routes.rs:141 | The `owner/repo#number` caption of a webhook message is read back by the extractor as that reference and its URL. |
| Routes.RouteTestWebhookOk | src/driver/routes.rs:47-67 | With the builder of the route tests, a delivery is forwarded exactly when it has one item with a readable timestamp, the secret is present and the dispatch succeeds. |

## Left out

- Routes.Lookup: the fetch's result at the empty URL is not constrained. With no reference in
  the text the extractor gives `""`, and the source's `client.get("")` then fails on a relative
  URL, so that path answers 500. The model leaves that answer to the `fetch` input.
- HTTP I/O is not modelled: the GitHub client and GET (src/adapter/github.rs:22-35), and the POST
  of `send_issue_slack_message` (src/adapter/slack.rs:48-58). Their results are inputs.
- Decoding and encoding by serde, serde_qs and serde_json are not modelled. This covers
  `req.text()`, `req.json()`, `serde_qs::from_str` and `Response::from_json`. Decoded values and
  decode failures are inputs. A failure of `Response::from_json` is not modelled.
- The router and the worker entry point (src/lib.rs) are plumbing and are not modelled.
- Secret lookup is an input, the secret or its error.
- async/await and the worker runtime are not modelled. Nothing depends on concurrency.
- `Slack.create_message`, `Slack.send_message` and `GithubWebhookRequest::label` are not part of
  this model. They are inputs to `Routes.Webhook`.
- src/model/routes.rs is an older shape of the request types and is not modelled.
- src/model/github.rs, which the shown slack.rs imports, is not part of this model. Its record is
  taken to be the one in src/domain/model/github.rs. The `PullRequest` record is taken to have the
  same fields.
- `\w` is ASCII only. Unicode word characters are not modelled.
- `\d` is ASCII only (`Strings.IsAsciiDigit`). Unicode decimal digits are not modelled.
- CreatedAt.ParseCreatedAt: calendar validity is not checked. Each field is what its digits say,
  so `2024-13-45T99:99:99Z` reads. chrono would refuse it.
- CreatedAt.ParseSlashFormat: chrono's parser is not part of this model. The scan follows its
  steps for `%Y`, `%m`, `%d` and literal characters. The 64-bit overflow check on a signed
  year's digits is not modelled. The hour is one field rather than chrono's half-day and
  twelve-hour pair.
- CreatedAt.CompleteDateTime: a date-time before year 0 is refused with `OutOfRange`, because
  `DateTime` holds a natural year. chrono accepts years down to -262144. No input of
  `%Y/%m/%d` reaches that step, because none has a time of day.
- Routes.IssueAndPullRequestAlike: the webhook-level equality is promised only when the label
  reads the same from both deliveries. `GithubWebhookRequest::label` is not part of this model.
  When it reads differently, the messages differ (`Routes.LabelShowsInMessage`).
- Routes.RustErrorDebug: Rust's `{:?}` escapes quotes and control characters inside the message.
  That escaping is not modelled.
- GithubModel.TrackedItem: the `u32` number is kept as a bounded natural. Nothing in the model
  does arithmetic on it.

## Findings

| source | as written | input that shows it | evidently intended | confidence | as-written member | corrected member |
|---|---|---|---|---|---|---|
| src/adapter/slack.rs:13 | `NaiveDateTime::parse_from_str(&issue.created_at, "%Y/%m/%d").unwrap()` parses the tracker's timestamp against a slash-separated date with no time of day. No string can satisfy that for a date-time, so the formatter always panics. | `created_at = "2024-07-07T20:09:31Z"` (routes.rs:91): `-` follows the year where `/` is expected, so the parse fails with `Invalid`. `2024/07/07` is read in full and fails with `NotEnough`. | Read the RFC 3339 timestamp and display it as `2024-07-07 20:09:31`, the text routes.rs:106 expects. | not executed | CreatedAt.ParseSlashFormat, SlackAdapter.TextLinesAsWritten | CreatedAt.ParseCreatedAt, SlackAdapter.TextLines |
