/** The message formatter: the four text lines describing an issue or pull request, and the
    section block that carries them with the author's avatar. */
module SlackAdapter {
  import opened Results
  import opened Strings
  import opened GithubModel
  import opened SlackModel
  import opened CreatedAt

  /** Rendering stops when the item's timestamp cannot be read; the source unwraps the parse,
      so this error stands for a panic. */
  datatype FormatError = UnparsableCreatedAt(createdAt: string)

  /** A markdown link `<target|caption>`. */
  function Link(target: string, caption: string): string {
    "<" + target + "|" + caption + ">"
  }

  /** The title line: the item's title and a link to it labelled with the caller's text. */
  function TitleLine(item: TrackedItem, text: string): string {
    item.title + " - " + Link(item.htmlUrl, text)
  }

  /** The state line: the item's state, a link to its author, and the displayed date. */
  function StateLine(item: TrackedItem, date: string): string {
    item.state + " - Created by " + Link(item.user.htmlUrl, item.user.login) + " on " + date
  }

  /** `issue_slack_message_text_lines` with the intended timestamp parse: the prefix, the title
      line, the body and the state line, joined by newlines. An unreadable timestamp stops the
      rendering as a whole, with no partial text. */
  function TextLines(item: TrackedItem, text: string, prefix: string): (r: Result<string, FormatError>)
    ensures r.Err? <==> !IsRfc3339Utc(item.createdAt)
    ensures r.Err? ==> r.error == UnparsableCreatedAt(item.createdAt)
    ensures r.Ok? ==> r.value == FlatText(prefix, item.title, item.htmlUrl, text, item.body,
      item.state, item.user.htmlUrl, item.user.login,
      item.createdAt[..10] + " " + item.createdAt[11..19])
  {
    match ParseCreatedAt(item.createdAt)
    case None => Err(UnparsableCreatedAt(item.createdAt))
    case Some(d) =>
      var date := RenderDate(d);
      ReshapeCreatedAt(item.createdAt);
      JoinedLines(prefix, item.title, item.htmlUrl, text, item.body, item.state,
        item.user.htmlUrl, item.user.login, date);
      Ok(Join([prefix, TitleLine(item, text), item.body, StateLine(item, date)], '\n'))
  }

  /** The text spelled out: the prefix, the title with the item link, the body, and the state
      with the author link and the date, one per line. */
  function FlatText(prefix: string, title: string, url: string, text: string, body: string,
                    state: string, userUrl: string, login: string, date: string): string {
    prefix + "\n"
    + (title + " - <" + url + "|" + text + ">") + "\n"
    + body + "\n"
    + (state + " - Created by <" + userUrl + "|" + login + "> on " + date)
  }

  /** Joining the four lines gives the flat text. */
  lemma JoinedLines(prefix: string, title: string, url: string, text: string, body: string,
                    state: string, userUrl: string, login: string, date: string)
    ensures Join([prefix, title + " - " + Link(url, text), body,
                  state + " - Created by " + Link(userUrl, login) + " on " + date], '\n')
      == FlatText(prefix, title, url, text, body, state, userUrl, login, date)
  {
    var l1 := title + " - " + Link(url, text);
    var l3 := state + " - Created by " + Link(userUrl, login) + " on " + date;
    Join4(prefix, l1, body, l3, '\n');
    assert l1 == title + " - <" + url + "|" + text + ">";
    assert l3 == state + " - Created by <" + userUrl + "|" + login + "> on " + date;
  }

  /** The four lines `TextLines` joins, when the timestamp reads. */
  function LinesOf(item: TrackedItem, text: string, prefix: string): seq<string>
    requires IsRfc3339Utc(item.createdAt)
  {
    [prefix, TitleLine(item, text), item.body,
     StateLine(item, RenderDate(ParseCreatedAt(item.createdAt).value))]
  }

  /** No field that reaches the text holds a line break. */
  predicate SingleLineFields(item: TrackedItem, text: string, prefix: string) {
    '\n' !in prefix && '\n' !in item.title && '\n' !in item.htmlUrl && '\n' !in text
    && '\n' !in item.body && '\n' !in item.state && '\n' !in item.user.htmlUrl
    && '\n' !in item.user.login
  }

  lemma DigitsHaveNoNewline(s: string)
    requires AllDigits(s)
    ensures '\n' !in s
  {
  }

  /** A displayed date is a single line. */
  lemma RenderDateSingleLine(d: DateTime)
    ensures '\n' !in RenderDate(d)
  {
    var y := YearText(d.year);
    if d.year < 10000 {
      DigitsHaveNoNewline(y);
    } else {
      DigitsHaveNoNewline(y[1..]);
      assert y == [y[0]] + y[1..];
    }
    DigitsHaveNoNewline(PadDecimal(d.month, 2));
    DigitsHaveNoNewline(PadDecimal(d.day, 2));
    DigitsHaveNoNewline(PadDecimal(d.hour, 2));
    DigitsHaveNoNewline(PadDecimal(d.minute, 2));
    DigitsHaveNoNewline(PadDecimal(d.second, 2));
  }

  /** Splitting the text at its line breaks gives back exactly the four lines, the first being
      the prefix even when the prefix is empty, as long as no field holds a line break. */
  lemma TextLinesSplit(item: TrackedItem, text: string, prefix: string)
    requires IsRfc3339Utc(item.createdAt) && SingleLineFields(item, text, prefix)
    ensures Split(TextLines(item, text, prefix).value, '\n') == LinesOf(item, text, prefix)
    ensures |Split(TextLines(item, text, prefix).value, '\n')| == 4
    ensures Split(TextLines(item, text, prefix).value, '\n')[0] == prefix
  {
    var lines := LinesOf(item, text, prefix);
    TextLinesJoin(item, text, prefix);
    LinesSingle(item, text, prefix);
    SplitJoin(lines, '\n');
  }

  /** The text is the four lines joined by line breaks. */
  lemma TextLinesJoin(item: TrackedItem, text: string, prefix: string)
    requires IsRfc3339Utc(item.createdAt)
    ensures TextLines(item, text, prefix) == Ok(Join(LinesOf(item, text, prefix), '\n'))
  {
  }

  /** When no field holds a line break, none of the four lines does. */
  lemma LinesSingle(item: TrackedItem, text: string, prefix: string)
    requires IsRfc3339Utc(item.createdAt) && SingleLineFields(item, text, prefix)
    ensures NoneContains(LinesOf(item, text, prefix), '\n')
  {
    var date := RenderDate(ParseCreatedAt(item.createdAt).value);
    RenderDateSingleLine(ParseCreatedAt(item.createdAt).value);
    TitleLineSingle(item, text);
    StateLineSingle(item, date);
  }

  lemma TitleLineSingle(item: TrackedItem, text: string)
    requires '\n' !in item.title && '\n' !in item.htmlUrl && '\n' !in text
    ensures '\n' !in TitleLine(item, text)
  {
    assert '\n' !in " - " && '\n' !in "<" && '\n' !in "|" && '\n' !in ">";
  }

  lemma StateLineSingle(item: TrackedItem, date: string)
    requires '\n' !in item.state && '\n' !in item.user.htmlUrl && '\n' !in item.user.login
    requires '\n' !in date
    ensures '\n' !in StateLine(item, date)
  {
    assert '\n' !in " - Created by " && '\n' !in " on ";
    assert '\n' !in "<" && '\n' !in "|" && '\n' !in ">";
  }

  /** The number of line breaks in a string. */
  function Newlines(s: string): nat {
    if |s| == 0 then 0 else (if s[0] == '\n' then 1 else 0) + Newlines(s[1..])
  }

  /** The text holds exactly three line breaks beyond those in the fields it copies. */
  lemma TextLinesNewlines(item: TrackedItem, text: string, prefix: string)
    requires IsRfc3339Utc(item.createdAt)
    ensures Newlines(TextLines(item, text, prefix).value) ==
      3 + Newlines(prefix) + Newlines(item.title) + Newlines(item.htmlUrl) + Newlines(text)
      + Newlines(item.body) + Newlines(item.state) + Newlines(item.user.htmlUrl)
      + Newlines(item.user.login)
  {
    var date := item.createdAt[..10] + " " + item.createdAt[11..19];
    RenderDateSingleLine(ParseCreatedAt(item.createdAt).value);
    ReshapeCreatedAt(item.createdAt);
    FlatTextNewlines(prefix, item.title, item.htmlUrl, text, item.body, item.state,
      item.user.htmlUrl, item.user.login, date);
  }

  lemma FlatTextNewlines(prefix: string, title: string, url: string, text: string, body: string,
                         state: string, userUrl: string, login: string, date: string)
    requires '\n' !in date
    ensures Newlines(FlatText(prefix, title, url, text, body, state, userUrl, login, date)) ==
      3 + Newlines(prefix) + Newlines(title) + Newlines(url) + Newlines(text) + Newlines(body)
      + Newlines(state) + Newlines(userUrl) + Newlines(login)
  {
    var l1 := title + " - <" + url + "|" + text + ">";
    var l3 := state + " - Created by <" + userUrl + "|" + login + "> on " + date;
    TitleLineNewlines(title, url, text);
    StateLineNewlines(state, userUrl, login, date);
    NewlinesAppend(prefix + "\n" + l1 + "\n" + body + "\n", l3);
    NewlinesAppend(prefix + "\n" + l1 + "\n" + body, "\n");
    NewlinesAppend(prefix + "\n" + l1 + "\n", body);
    NewlinesAppend(prefix + "\n" + l1, "\n");
    NewlinesAppend(prefix + "\n", l1);
    NewlinesAppend(prefix, "\n");
  }

  lemma TitleLineNewlines(title: string, url: string, text: string)
    ensures Newlines(title + " - <" + url + "|" + text + ">")
      == Newlines(title) + Newlines(url) + Newlines(text)
  {
    NoNewlineAppend(title, " - <");
    NewlinesAppend(title + " - <", url);
    NoNewlineAppend(title + " - <" + url, "|");
    NewlinesAppend(title + " - <" + url + "|", text);
    NoNewlineAppend(title + " - <" + url + "|" + text, ">");
  }

  lemma StateLineNewlines(state: string, userUrl: string, login: string, date: string)
    requires '\n' !in date
    ensures Newlines(state + " - Created by <" + userUrl + "|" + login + "> on " + date)
      == Newlines(state) + Newlines(userUrl) + Newlines(login)
  {
    NoNewlineAppend(state, " - Created by <");
    NewlinesAppend(state + " - Created by <", userUrl);
    NoNewlineAppend(state + " - Created by <" + userUrl, "|");
    NewlinesAppend(state + " - Created by <" + userUrl + "|", login);
    NoNewlineAppend(state + " - Created by <" + userUrl + "|" + login, "> on ");
    NoNewlineAppend(state + " - Created by <" + userUrl + "|" + login + "> on ", date);
  }

  /** Line breaks add up over a concatenation. */
  lemma {:induction false} NewlinesAppend(a: string, b: string)
    ensures Newlines(a + b) == Newlines(a) + Newlines(b)
  {
    if |a| > 0 {
      assert (a + b)[1..] == a[1..] + b;
      NewlinesAppend(a[1..], b);
    } else {
      assert a + b == b;
    }
  }

  /** A string without a line break counts none. */
  lemma {:induction false} NoNewlineNone(l: string)
    ensures '\n' !in l ==> Newlines(l) == 0
  {
    if |l| > 0 {
      NoNewlineNone(l[1..]);
      assert '\n' !in l ==> '\n' !in l[1..];
    }
  }

  lemma NoNewlineAppend(a: string, l: string)
    requires '\n' !in l
    ensures Newlines(a + l) == Newlines(a)
  {
    NewlinesAppend(a, l);
    NoNewlineNone(l);
  }

  /** With a readable timestamp the prefix heads the text, and everything after it does not
      depend on it. */
  lemma TextLinesPrefix(item: TrackedItem, text: string, prefix: string)
    requires IsRfc3339Utc(item.createdAt)
    ensures TextLines(item, text, prefix).value == prefix + TextLines(item, text, "").value
  {
    var date := item.createdAt[..10] + " " + item.createdAt[11..19];
    var rest := "\n" + (item.title + " - <" + item.htmlUrl + "|" + text + ">") + "\n"
      + item.body + "\n"
      + (item.state + " - Created by <" + item.user.htmlUrl + "|" + item.user.login + "> on " + date);
    assert FlatText(prefix, item.title, item.htmlUrl, text, item.body, item.state,
      item.user.htmlUrl, item.user.login, date) == prefix + rest;
    assert FlatText("", item.title, item.htmlUrl, text, item.body, item.state,
      item.user.htmlUrl, item.user.login, date) == rest;
  }

  /** Two texts followed by the same rest are equal when the results are. */
  lemma SameBeforeRest(p1: string, p2: string, rest: string)
    requires p1 + rest == p2 + rest
    ensures p1 == p2
  {
    assert |p1| == |p2|;
    assert p1 == (p1 + rest)[..|p1|];
    assert p2 == (p2 + rest)[..|p2|];
  }

  /** With a readable timestamp, two prefixes give the same text exactly when they are the
      same, whatever line breaks the fields hold. */
  lemma {:induction false} TextLinesPrefixInjective(item: TrackedItem, text: string, p1: string, p2: string)
    requires IsRfc3339Utc(item.createdAt)
    ensures TextLines(item, text, p1) == TextLines(item, text, p2) <==> p1 == p2
  {
    if TextLines(item, text, p1) == TextLines(item, text, p2) {
      TextLinesPrefix(item, text, p1);
      TextLinesPrefix(item, text, p2);
      SameBeforeRest(p1, p2, TextLines(item, text, "").value);
    }
  }

  /** The text does not depend on whether the item is an issue or a pull request. */
  lemma TextLinesIgnoreKind(item: TrackedItem, text: string, prefix: string)
    ensures TextLines(item.OtherKind(), text, prefix) == TextLines(item, text, prefix)
  {
  }

  /** The link in the title line points at the item and is labelled with the caller's text,
      verbatim; the author link is built from the author's page and login alone. */
  lemma TextLinesLinks(item: TrackedItem, text: string, prefix: string)
    requires IsRfc3339Utc(item.createdAt)
    ensures LinesOf(item, text, prefix)[1] == item.title + " - <" + item.htmlUrl + "|" + text + ">"
    ensures forall other: TrackedItem ::
      (other.state == item.state && other.user == item.user && other.createdAt == item.createdAt)
        ==> LinesOf(other, text, prefix)[3] == LinesOf(item, text, prefix)[3]
  {
  }

  /** `construct_gh_issue_slack_message`: one section block whose markdown text is the lines
      unchanged and whose image is the author's avatar, with the login as its alternative
      text. */
  function ConstructBlock(item: TrackedItem, lines: string): (b: Block)
    ensures b.kind == "section" && b.text == Text("mrkdwn", lines)
    ensures b.accessory == Accessory("image", item.user.avatarUrl, item.user.login)
  {
    Block("section", Text("mrkdwn", lines), Accessory("image", item.user.avatarUrl, item.user.login))
  }

  /** The block depends on the author and the lines only: title, body, state, timestamp,
      number, link and kind of item do not reach it, so an issue and a pull request with the
      same author and lines give the same block. */
  lemma BlockDependsOnUserAndLines(a: TrackedItem, b: TrackedItem, lines: string)
    ensures ConstructBlock(a, lines) == ConstructBlock(b, lines) <==> a.user.avatarUrl == b.user.avatarUrl && a.user.login == b.user.login
    ensures a.user == b.user ==> ConstructBlock(a, lines) == ConstructBlock(b, lines)
    ensures ConstructBlock(a.OtherKind(), lines) == ConstructBlock(a, lines)
  {
  }

  /** The block hands its lines back unchanged. */
  lemma BlockKeepsLines(item: TrackedItem, l1: string, l2: string)
    ensures ConstructBlock(item, l1) == ConstructBlock(item, l2) <==> l1 == l2
  {
  }

  // ---------------------------------------------------------------------------------------
  // As written

  /** `issue_slack_message_text_lines` as written, with the timestamp read against
      `%Y/%m/%d`: it never produces text. */
  function TextLinesAsWritten(item: TrackedItem, text: string, prefix: string): (r: Result<string, ParseError>)
    ensures r.Err?
    ensures IsRfc3339Utc(item.createdAt) ==> r == Err(Invalid)
  {
    match ParseSlashFormat(item.createdAt)
    case Err(e) =>
      SlashFormatRejectsRfc3339Implies(item.createdAt);
      Err(e)
    case Ok(d) =>
      Ok(Join([prefix, TitleLine(item, text), item.body, StateLine(item, RenderDate(d))], '\n'))
  }

  lemma SlashFormatRejectsRfc3339Implies(s: string)
    ensures IsRfc3339Utc(s) ==> ParseSlashFormat(s) == Err(Invalid)
  {
    if IsRfc3339Utc(s) {
      SlashFormatRejectsRfc3339(s);
    }
  }

  /** Every item the tracker sends, with its timestamp in the RFC 3339 layout, is rendered by
      the intended step and refused by the step as written. */
  lemma AsWrittenRefusesWhatIntendedRenders(item: TrackedItem, text: string, prefix: string)
    requires IsRfc3339Utc(item.createdAt)
    ensures TextLines(item, text, prefix).Ok?
    ensures TextLinesAsWritten(item, text, prefix) == Err(Invalid)
  {
  }
}
