/**
 * The prompt-building logic of the e-mail generation page: the user prompt
 * built from a contact row, the per-line trim of the campaign's system
 * prompt, the bold rendering of a prompt, and the campaign's column list and
 * row filter.
 */
module Emails {
  import opened Wrappers
  import opened Text

  // ---------------------------------------------------------------------------
  // The user prompt
  // ---------------------------------------------------------------------------

  /** A cell of a contact row: a string, or `None` for a SQL null. */
  type Value = Option<string>

  /** `f"{v}"`: `None` renders as the text `None`. */
  function Render(v: Value): string
  {
    match v
    case None => "None"
    case Some(s) => s
  }

  /** `if v:`: `None` and the empty string are false. */
  predicate Truthy(v: Value)
  {
    v.Some? && v.value != ""
  }

  /** One `LABEL: value` line, without its newline; `key` includes the `": "`. */
  function Field(key: string, v: Value): string
  {
    key + Render(v)
  }

  /** The lines of the user prompt, in order; the previous-event pair only for a truthy event. */
  function PromptLines(company: Value, industry: Value, notes: Value, contact: Value,
                       event: Value, eventDate: Value): seq<string>
  {
    [Field("COMPANY: ", company), Field("INDUSTRY: ", industry), Field("NOTES: ", notes), Field("CONTACT_NAME: ", contact)]
    + (if Truthy(event) then [Field("PREVIOUS_EVENT: ", event), Field("PREVIOUS_EVENT_DATE: ", eventDate)] else [])
  }

  /** The user prompt: every line terminated by a newline. */
  function UserPrompt(company: Value, industry: Value, notes: Value, contact: Value,
                      event: Value, eventDate: Value): (p: string)
    ensures |p| > 9 && p[..9] == "COMPANY: "
  {
    Unlines(PromptLines(company, industry, notes, contact, event, eventDate), '\n')
  }

  /** `format_user_prompt`: the prompt is built line by line with `+=`. */
  method FormatUserPrompt(company: Value, industry: Value, notes: Value, contact: Value,
                          event: Value, eventDate: Value) returns (userPrompt: string)
    ensures userPrompt == UserPrompt(company, industry, notes, contact, event, eventDate)
  {
    userPrompt := Field("COMPANY: ", company) + "\n";
    userPrompt := userPrompt + Field("INDUSTRY: ", industry) + "\n";
    userPrompt := userPrompt + Field("NOTES: ", notes) + "\n";
    userPrompt := userPrompt + Field("CONTACT_NAME: ", contact) + "\n";
    ghost var base := userPrompt;
    if Truthy(event) {
      userPrompt := userPrompt + Field("PREVIOUS_EVENT: ", event) + "\n";
      userPrompt := userPrompt + Field("PREVIOUS_EVENT_DATE: ", eventDate) + "\n";
    }
    BuildLines(Field("COMPANY: ", company), Field("INDUSTRY: ", industry), Field("NOTES: ", notes), Field("CONTACT_NAME: ", contact),
               Field("PREVIOUS_EVENT: ", event), Field("PREVIOUS_EVENT_DATE: ", eventDate), Truthy(event));
  }

  /** The four keyed lines and an optional pair, each terminated by a newline, appended one after the other. */
  lemma BuildLines(a: string, b: string, c: string, d: string, x: string, y: string, present: bool)
    ensures Unlines([a, b, c, d] + (if present then [x, y] else []), '\n')
         == if present then a + "\n" + b + "\n" + c + "\n" + d + "\n" + x + "\n" + y + "\n"
            else a + "\n" + b + "\n" + c + "\n" + d + "\n"
  {
    UnlinesFour(a, b, c, d);
    OptionalPair([a, b, c, d], x, y, present);
    var s := a + "\n" + b + "\n" + c + "\n" + d + "\n";
    assert s + (x + "\n" + y + "\n") == s + x + "\n" + y + "\n";
  }

  lemma UnlinesOne(a: string)
    ensures Unlines([a], '\n') == a + "\n"
  {
    assert [a][1..] == [];
  }

  lemma UnlinesFour(a: string, b: string, c: string, d: string)
    ensures Unlines([a, b, c, d], '\n') == a + "\n" + b + "\n" + c + "\n" + d + "\n"
  {
    UnlinesAppend([a], [b, c, d], '\n');
    UnlinesAppend([b], [c, d], '\n');
    UnlinesAppend([c], [d], '\n');
    UnlinesOne(a);
    UnlinesOne(b);
    UnlinesOne(c);
    UnlinesOne(d);
    assert [a] + [b, c, d] == [a, b, c, d] && [b] + [c, d] == [b, c, d] && [c] + [d] == [c, d];
  }

  /** Appending two lines to a prompt appends them, each with its newline. */
  lemma UnlinesPair(base: seq<string>, x: string, y: string)
    ensures Unlines(base + [x, y], '\n') == Unlines(base, '\n') + (x + "\n" + y + "\n")
  {
    UnlinesAppend(base, [x, y], '\n');
    UnlinesAppend([x], [y], '\n');
    UnlinesOne(x);
    UnlinesOne(y);
    assert [x] + [y] == [x, y];
  }

  /**
   * The previous-event pair is appended exactly when the event is truthy;
   * otherwise the prompt is the one of a contact with no event at all.
   */
  lemma PromptWithEvent(company: Value, industry: Value, notes: Value, contact: Value,
                        event: Value, eventDate: Value)
    ensures UserPrompt(company, industry, notes, contact, event, eventDate)
         == UserPrompt(company, industry, notes, contact, None, None)
          + (if Truthy(event)
             then Field("PREVIOUS_EVENT: ", event) + "\n" + Field("PREVIOUS_EVENT_DATE: ", eventDate) + "\n"
             else "")
  {
    var base := [Field("COMPANY: ", company), Field("INDUSTRY: ", industry), Field("NOTES: ", notes), Field("CONTACT_NAME: ", contact)];
    OptionalPair(base, Field("PREVIOUS_EVENT: ", event), Field("PREVIOUS_EVENT_DATE: ", eventDate), Truthy(event));
    OptionalPair(base, Field("PREVIOUS_EVENT: ", None), Field("PREVIOUS_EVENT_DATE: ", None), false);
  }

  lemma OptionalPair(base: seq<string>, x: string, y: string, present: bool)
    ensures Unlines(base + (if present then [x, y] else []), '\n')
         == Unlines(base, '\n') + (if present then x + "\n" + y + "\n" else "")
  {
    if present {
      UnlinesPair(base, x, y);
    } else {
      assert base + [] == base;
      assert Unlines(base, '\n') + "" == Unlines(base, '\n');
    }
  }

  /** Without a truthy event the date argument has no effect. */
  lemma DateIgnoredWithoutEvent(company: Value, industry: Value, notes: Value, contact: Value,
                                event: Value, date1: Value, date2: Value)
    requires !Truthy(event)
    ensures UserPrompt(company, industry, notes, contact, event, date1)
         == UserPrompt(company, industry, notes, contact, event, date2)
  {
  }

  /** A value whose rendering holds no newline. */
  predicate OneLine(v: Value)
  {
    '\n' !in Render(v)
  }

  lemma FieldOneLine(key: string, v: Value)
    requires '\n' !in key && OneLine(v)
    ensures '\n' !in Field(key, v)
  {
  }

  lemma SplitLines(a: string, b: string, c: string, d: string, x: string, y: string, present: bool)
    requires '\n' !in a && '\n' !in b && '\n' !in c && '\n' !in d && '\n' !in x && '\n' !in y
    ensures var lines := Split(Unlines([a, b, c, d] + (if present then [x, y] else []), '\n'), '\n');
      && |lines| == (if present then 7 else 5)
      && lines[0] == a && lines[1] == b && lines[2] == c && lines[3] == d
      && (present ==> lines[4] == x && lines[5] == y)
      && lines[|lines| - 1] == ""
  {
    SplitUnlines([a, b, c, d] + (if present then [x, y] else []), '\n');
  }

  /**
   * For one-line values the prompt's lines are the four keyed lines in order,
   * then the previous-event pair exactly when the event is truthy, then the
   * empty piece after the final newline.
   */
  lemma UserPromptLines(company: Value, industry: Value, notes: Value, contact: Value,
                        event: Value, eventDate: Value)
    requires OneLine(company) && OneLine(industry) && OneLine(notes) && OneLine(contact)
    requires OneLine(event) && OneLine(eventDate)
    ensures var lines := Split(UserPrompt(company, industry, notes, contact, event, eventDate), '\n');
      && |lines| == (if Truthy(event) then 7 else 5)
      && lines[0] == Field("COMPANY: ", company)
      && lines[1] == Field("INDUSTRY: ", industry)
      && lines[2] == Field("NOTES: ", notes)
      && lines[3] == Field("CONTACT_NAME: ", contact)
      && (Truthy(event) ==>
            lines[4] == Field("PREVIOUS_EVENT: ", event) && lines[5] == Field("PREVIOUS_EVENT_DATE: ", eventDate))
      && lines[|lines| - 1] == ""
  {
    FieldOneLine("COMPANY: ", company);
    FieldOneLine("INDUSTRY: ", industry);
    FieldOneLine("NOTES: ", notes);
    FieldOneLine("CONTACT_NAME: ", contact);
    FieldOneLine("PREVIOUS_EVENT: ", event);
    FieldOneLine("PREVIOUS_EVENT_DATE: ", eventDate);
    SplitLines(Field("COMPANY: ", company), Field("INDUSTRY: ", industry), Field("NOTES: ", notes), Field("CONTACT_NAME: ", contact),
               Field("PREVIOUS_EVENT: ", event), Field("PREVIOUS_EVENT_DATE: ", eventDate), Truthy(event));
  }

  /** For one-line values the prompt holds exactly four newlines, or six with a previous event. */
  lemma UserPromptNewlineCount(company: Value, industry: Value, notes: Value, contact: Value,
                               event: Value, eventDate: Value)
    requires OneLine(company) && OneLine(industry) && OneLine(notes) && OneLine(contact)
    requires OneLine(event) && OneLine(eventDate)
    ensures Count(UserPrompt(company, industry, notes, contact, event, eventDate), '\n')
         == (if Truthy(event) then 6 else 4)
  {
    UserPromptLines(company, industry, notes, contact, event, eventDate);
  }

  /** The prompt always ends in a newline. */
  lemma UserPromptEndsInNewline(company: Value, industry: Value, notes: Value, contact: Value,
                                event: Value, eventDate: Value)
    ensures var p := UserPrompt(company, industry, notes, contact, event, eventDate);
      p != [] && p[|p| - 1] == '\n'
  {
    PromptWithEvent(company, industry, notes, contact, event, eventDate);
    UnlinesFour(Field("COMPANY: ", company), Field("INDUSTRY: ", industry), Field("NOTES: ", notes), Field("CONTACT_NAME: ", contact));
    assert PromptLines(company, industry, notes, contact, None, None)
        == [Field("COMPANY: ", company), Field("INDUSTRY: ", industry), Field("NOTES: ", notes), Field("CONTACT_NAME: ", contact)];
  }

  // ---------------------------------------------------------------------------
  // The system prompt trim
  // ---------------------------------------------------------------------------

  predicate IsSpaceOrTab(c: char)
  {
    c == ' ' || c == '\t'
  }

  /** One line with `^[ \t]+` and `[ \t]+$` removed. */
  function TrimLine(line: string): string
  {
    Trim(line, IsSpaceOrTab)
  }

  /** Every line of `lines` trimmed. */
  function TrimLines(lines: seq<string>): (r: seq<string>)
    ensures |r| == |lines|
  {
    seq(|lines|, k requires 0 <= k < |lines| => TrimLine(lines[k]))
  }

  /** `re.sub("^[ \t]+|[ \t]+$", "", prompt, flags=re.MULTILINE)`: each line trimmed of spaces and tabs. */
  function TrimSystemPrompt(prompt: string): (r: string)
    ensures '\n' !in prompt ==> r == TrimLine(prompt)
  {
    SplitOneLine(prompt, '\n');
    Join("\n", TrimLines(Split(prompt, '\n')))
  }

  /** How many leading characters the trim of `line` cuts. */
  function LeadCut(line: string): nat
  {
    |line| - |TrimStart(line, IsSpaceOrTab)|
  }

  /**
   * A trimmed line is the slice of the line after its leading cut, with only
   * spaces and tabs cut on either side and none left at either end.
   */
  predicate TrimmedFrom(r: string, line: string)
  {
    var a := LeadCut(line);
    && a + |r| <= |line| && r == line[a..a + |r|]
    && (forall i :: 0 <= i < a ==> IsSpaceOrTab(line[i]))
    && (forall i :: a + |r| <= i < |line| ==> IsSpaceOrTab(line[i]))
    && (r == [] || (!IsSpaceOrTab(r[0]) && !IsSpaceOrTab(r[|r| - 1])))
  }

  lemma TrimmedLineShape(line: string)
    ensures TrimmedFrom(TrimLine(line), line)
    ensures '\n' !in line ==> '\n' !in TrimLine(line)
  {
    TrimShape(line, IsSpaceOrTab);
    var r := TrimLine(line);
    var a := LeadCut(line);
    if '\n' !in line {
      forall i | 0 <= i < |r| ensures r[i] != '\n' {
        assert r[i] == line[a + i];
      }
    }
  }

  /**
   * The trimmed prompt has the same lines as the original, each trimmed: a
   * slice of the original line with only spaces and tabs cut off its ends,
   * and neither beginning nor ending with a space or tab.
   */
  lemma TrimSystemPromptLines(prompt: string)
    ensures var before, after := Split(prompt, '\n'), Split(TrimSystemPrompt(prompt), '\n');
      && after == TrimLines(before)
      && forall k :: 0 <= k < |after| ==> TrimmedFrom(after[k], before[k])
  {
    var before := Split(prompt, '\n');
    var trimmed := TrimLines(before);
    forall k | 0 <= k < |trimmed| ensures '\n' !in trimmed[k] && TrimmedFrom(trimmed[k], before[k]) {
      TrimmedLineShape(before[k]);
    }
    SplitJoin(trimmed, '\n');
  }

  /** The trim keeps the number of newlines. */
  lemma TrimSystemPromptKeepsNewlines(prompt: string)
    ensures Count(TrimSystemPrompt(prompt), '\n') == Count(prompt, '\n')
  {
    TrimSystemPromptLines(prompt);
  }

  /** Trimming an already trimmed prompt changes nothing. */
  lemma TrimSystemPromptIdempotent(prompt: string)
    ensures TrimSystemPrompt(TrimSystemPrompt(prompt)) == TrimSystemPrompt(prompt)
  {
    TrimSystemPromptLines(prompt);
    var trimmed := TrimLines(Split(prompt, '\n'));
    forall k | 0 <= k < |trimmed| ensures TrimLine(trimmed[k]) == trimmed[k] {
      TrimIdempotent(Split(prompt, '\n')[k], IsSpaceOrTab);
    }
    assert TrimLines(trimmed) == trimmed;
  }

  // ---------------------------------------------------------------------------
  // print_prompt
  // ---------------------------------------------------------------------------

  /** Every line wrapped in `**…**`. */
  function BoldLines(lines: seq<string>): (r: seq<string>)
    ensures |r| == |lines|
  {
    seq(|lines|, k requires 0 <= k < |lines| => "**" + lines[k] + "**")
  }

  /** `"  \n".join(f"**{line}**" for line in user_prompt.split("\n"))`. */
  function BoldPrompt(prompt: string): (r: string)
    ensures '\n' !in prompt ==> r == "**" + prompt + "**"
  {
    SplitOneLine(prompt, '\n');
    Join("  \n", BoldLines(Split(prompt, '\n')))
  }

  /**
   * The rendered prompt has one line per line of the prompt, in order, each
   * wrapped in `**…**`, and every line but the last ends in a Markdown hard break.
   */
  lemma BoldPromptLines(prompt: string)
    ensures var lines, shown := Split(prompt, '\n'), Split(BoldPrompt(prompt), '\n');
      && |shown| == |lines|
      && shown == Padded(BoldLines(lines), "  ")
      && forall k :: 0 <= k < |lines| ==>
           shown[k] == "**" + lines[k] + "**" + (if k < |lines| - 1 then "  " else "")
  {
    var bold := BoldLines(Split(prompt, '\n'));
    forall k | 0 <= k < |bold| ensures '\n' !in bold[k] {
      assert '\n' !in Split(prompt, '\n')[k];
    }
    assert "  \n" == "  " + ['\n'];
    SplitJoinPadded(bold, "  ", '\n');
  }

  // ---------------------------------------------------------------------------
  // Campaigns
  // ---------------------------------------------------------------------------

  const ReturningCustomer: string := "Returning Customer"
  const NewCustomer: string := "New Customer"

  /** `campaign_names`. */
  const CampaignNames: seq<string> := [ReturningCustomer, NewCustomer]

  /** A selected column: a table column by name, or `humanize_date(source, today)` under an alias. */
  datatype Column = Named(name: string) | HumanizedDate(source: string, alias: string)

  /** The name of the column in the selected table. */
  function OutputName(c: Column): string
  {
    match c
    case Named(n) => n
    case HumanizedDate(_, alias) => alias
  }

  function OutputNames(cs: seq<Column>): (r: seq<string>)
    ensures |r| == |cs|
  {
    seq(|cs|, k requires 0 <= k < |cs| => OutputName(cs[k]))
  }

  /** `get_campaign_select`; `None` for a name it does not know (the function returns `None`). */
  function CampaignSelect(campaign: string): (r: Option<seq<Column>>)
    ensures r.Some? <==> campaign in CampaignNames
    ensures r.Some? ==> r.value != [] && r.value[0] == Named("UID") && Named("CONTACT_EMAIL") in r.value
  {
    if campaign == ReturningCustomer then
      Some([Named("UID"), Named("COMPANY_NAME"), Named("INDUSTRY"), Named("PREVIOUS_EVENT"),
            HumanizedDate("PREVIOUS_EVENT_DATE", "PREVIOUS_EVENT_DATE"),
            Named("NOTES"), Named("CONTACT_NAME"), Named("CONTACT_EMAIL")])
    else if campaign == NewCustomer then
      Some([Named("UID"), Named("COMPANY_NAME"), Named("INDUSTRY"),
            Named("NOTES"), Named("CONTACT_NAME"), Named("CONTACT_EMAIL")])
    else None
  }

  /**
   * Both campaigns select `UID` first and include the e-mail address and
   * every field of the user prompt. A returning customer's columns carry the
   * previous-event pair in fourth and fifth place, the date being the
   * humanised form of the raw date column; a new customer's columns are the
   * same list without that pair, in the same order.
   */
  lemma CampaignColumns()
    ensures CampaignSelect(ReturningCustomer).Some? && CampaignSelect(NewCustomer).Some?
    ensures var returning, newcomer := CampaignSelect(ReturningCustomer).value, CampaignSelect(NewCustomer).value;
      && |returning| == 8
      && returning[3] == Named("PREVIOUS_EVENT")
      && returning[4] == HumanizedDate("PREVIOUS_EVENT_DATE", "PREVIOUS_EVENT_DATE")
      && newcomer == returning[..3] + returning[5..]
      && OutputNames(newcomer) == ["UID", "COMPANY_NAME", "INDUSTRY", "NOTES", "CONTACT_NAME", "CONTACT_EMAIL"]
  {
    var returning, newcomer := CampaignSelect(ReturningCustomer).value, CampaignSelect(NewCustomer).value;
    assert newcomer == returning[..3] + returning[5..];
  }

  /** A new customer's list has no previous-event column at all. */
  lemma NewCustomerHasNoEvent()
    ensures CampaignSelect(NewCustomer).Some?
    ensures forall c :: c in CampaignSelect(NewCustomer).value ==>
      OutputName(c) != "PREVIOUS_EVENT" && OutputName(c) != "PREVIOUS_EVENT_DATE"
  {
  }

  /** A null test on one column. */
  datatype Filter = IsNotNull(column: string) | IsNull(column: string)

  /** `get_campaign_filter`; `None` for a name it does not know. */
  function CampaignFilter(campaign: string): (r: Option<Filter>)
    ensures r.Some? <==> campaign in CampaignNames
    ensures r.Some? ==> r.value.column == "PREVIOUS_EVENT"
  {
    if campaign == ReturningCustomer then Some(IsNotNull("PREVIOUS_EVENT"))
    else if campaign == NewCustomer then Some(IsNull("PREVIOUS_EVENT"))
    else None
  }

  /** A row of the contacts table. */
  type Row = map<string, Value>

  predicate Matches(f: Filter, row: Row)
    requires f.column in row
  {
    match f
    case IsNotNull(c) => row[c].Some?
    case IsNull(c) => row[c].None?
  }

  /**
   * Every contact row belongs to exactly one campaign, decided by whether its
   * previous event is null, and a new customer's row never has a truthy event.
   */
  lemma CampaignsPartitionRows(row: Row)
    requires "PREVIOUS_EVENT" in row
    ensures var returning, newcomer := CampaignFilter(ReturningCustomer).value, CampaignFilter(NewCustomer).value;
      && (Matches(returning, row) <==> !Matches(newcomer, row))
      && (Matches(returning, row) <==> row["PREVIOUS_EVENT"].Some?)
      && (Matches(newcomer, row) ==> !Truthy(row["PREVIOUS_EVENT"]))
  {
  }
}
