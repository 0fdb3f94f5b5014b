/** The decoded bodies of the two inbound requests. */
module RoutesModel {
  import opened Results
  import opened GithubModel

  /** The form fields of a slash command that the relay reads. */
  datatype SlashCommandRequest = SlashCommandRequest(text: string)

  datatype ReqOwner = ReqOwner(login: string)

  datatype ReqRepo = ReqRepo(name: string, owner: ReqOwner)

  /** A webhook delivery: an action with an issue, a pull request, both or neither. */
  datatype WebhookRequest = WebhookRequest(
    action: string,
    issue: Option<TrackedItem>,
    pullRequest: Option<TrackedItem>,
    repository: ReqRepo)
}
