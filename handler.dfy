/**
 * The /api handler's decision logic: read slack_name and example_name from the
 * query, check that neither is blank, and answer either 422 with the error list
 * or 200 with the information payload. The reply is the (status, value) pair the
 * handler hands to its JSON writer; the clock readings are parameters.
 */
module Handler {
  import opened Validation
  import opened Whitespace
  import opened Clock

  /** url.Values: every key of the query string with its values, in order of appearance. */
  type Query = map<string, seq<string>>

  const StatusOK := 200
  const StatusUnprocessableEntity := 422
  const GithubFileURL := "https://github.com/Huey-Emma/task-1/blob/main/main.go"
  const GithubRepoURL := "https://github.com/Huey-Emma/task-1"

  /** The success payload. */
  datatype PersonalInfo = PersonalInfo(
    slackName: string,
    exampleName: string,
    currentDay: string,
    utcTime: Instant,
    githubFileUrl: string,
    githubRepoUrl: string,
    statusCode: int)

  /** The value serialised as the response body. */
  datatype Body = ErrorList(errors: seq<ValidationError>) | Info(info: PersonalInfo)

  /** What the handler hands to its JSON writer: the status code and the body value. */
  datatype Reply = Reply(status: int, body: Body)

  /** queryParam (url.Values.Get): the first value given for the key, or "" when there is none. */
  function QueryParam(v: Query, key: string): (r: string)
    ensures key in v && |v[key]| > 0 ==> r == v[key][0]
    ensures r != "" ==> key in v && |v[key]| > 0
  {
    if key in v && |v[key]| > 0 then v[key][0] else ""
  }

  /** An absent parameter reads as "" and is therefore blank. */
  lemma MissingParamIsBlank(v: Query, key: string)
    requires key !in v || v[key] == []
    ensures QueryParam(v, key) == "" && !ValidString(QueryParam(v, key))
  {
  }

  /** The two checks of the handler, slack_name first. */
  function Checks(slackName: string, exampleName: string): seq<Check> {
    [ Check("slack_name", ValidString(slackName), "slack_name cannot be blank"),
      Check("example_name", ValidString(exampleName), "example_name cannot be blank") ]
  }

  /** infoHandler, from the parsed query and the two clock readings (day label, utc_time) to the reply. */
  function InfoHandler(query: Query, clock: Stamp, now: Instant): (r: Reply)
    ensures r.status == StatusUnprocessableEntity <==> r.body.ErrorList?
    ensures r.status == StatusOK <==> r.body.Info?
  {
    var slackName := QueryParam(query, "slack_name");
    var exampleName := QueryParam(query, "example_name");
    match Verdict(Checks(slackName, exampleName))
    case Some(errs) => Reply(StatusUnprocessableEntity, ErrorList(errs))
    case None =>
      Reply(StatusOK, Info(PersonalInfo(
        slackName, exampleName, Day(clock), now, GithubFileURL, GithubRepoURL, StatusOK)))
  }

  /** The error a blank parameter should produce, stated on its own: none if the value is not blank. */
  function BlankError(field: string, value: string): seq<ValidationError> {
    if ValidString(value) then [] else [ValidationError(field, field + " cannot be blank")]
  }

  /** The two message literals spelled as field name plus suffix. */
  lemma BlankMessages()
    ensures "slack_name" + " cannot be blank" == "slack_name cannot be blank"
    ensures "example_name" + " cannot be blank" == "example_name cannot be blank"
  {
    var s, s' := "slack_name" + " cannot be blank", "slack_name cannot be blank";
    forall i | 0 <= i < |s| ensures s[i] == s'[i] {
    }
    var e, e' := "example_name" + " cannot be blank", "example_name cannot be blank";
    forall i | 0 <= i < |e| ensures e[i] == e'[i] {
    }
  }

  /** Each of the handler's checks carries the message "<field> cannot be blank" for its own field. */
  lemma CheckMessages(slackName: string, exampleName: string)
    ensures forall k | 0 <= k < |Checks(slackName, exampleName)| ::
              Checks(slackName, exampleName)[k].msg == Checks(slackName, exampleName)[k].field + " cannot be blank"
  {
    BlankMessages();
  }

  /** The errors of the handler's checks are one per blank parameter, slack_name first. */
  lemma {:induction false} ChecksErrors(slackName: string, exampleName: string)
    ensures Errors(Checks(slackName, exampleName))
         == BlankError("slack_name", slackName) + BlankError("example_name", exampleName)
  {
    var cs := Checks(slackName, exampleName);
    assert cs == [cs[0]] + [cs[1]];
    ErrorsAppend([cs[0]], [cs[1]]);
    assert [cs[0]][..0] == [] && [cs[1]][..0] == [];
    assert Errors([cs[0]]) == Emitted(cs[0]);
    assert Errors([cs[1]]) == Emitted(cs[1]);
    BlankMessages();
  }

  /** The reply in closed form: 200 with the echoing payload when neither parameter is blank, else 422 with one error per blank parameter, slack_name first. */
  lemma HandlerReply(query: Query, clock: Stamp, now: Instant)
    ensures var slackName := QueryParam(query, "slack_name");
            var exampleName := QueryParam(query, "example_name");
            InfoHandler(query, clock, now)
            == if ValidString(slackName) && ValidString(exampleName) then
                 Reply(StatusOK, Info(PersonalInfo(slackName, exampleName, WeekdayName(clock.weekday), now,
                                                   GithubFileURL, GithubRepoURL, StatusOK)))
               else
                 Reply(StatusUnprocessableEntity,
                       ErrorList(BlankError("slack_name", slackName) + BlankError("example_name", exampleName)))
  {
    var slackName := QueryParam(query, "slack_name");
    var exampleName := QueryParam(query, "example_name");
    var cs := Checks(slackName, exampleName);
    ChecksErrors(slackName, exampleName);
    assert (forall i | 0 <= i < |cs| :: cs[i].cond) <==> cs[0].cond && cs[1].cond;
  }

  /** Every error of a 422 reply names a queried field and says that field cannot be blank. */
  lemma RejectionMessages(query: Query, clock: Stamp, now: Instant)
    requires InfoHandler(query, clock, now).status == StatusUnprocessableEntity
    ensures var errs := InfoHandler(query, clock, now).body.errors;
            && 1 <= |errs| <= 2
            && errs[0].field == (if ValidString(QueryParam(query, "slack_name")) then "example_name" else "slack_name")
            && forall k | 0 <= k < |errs| ::
                 errs[k].field in {"slack_name", "example_name"} && errs[k].Error() == errs[k].field + " cannot be blank"
  {
    var slackName := QueryParam(query, "slack_name");
    var exampleName := QueryParam(query, "example_name");
    HandlerReply(query, clock, now);
    assert !(ValidString(slackName) && ValidString(exampleName));
    assert InfoHandler(query, clock, now).body.errors
        == BlankError("slack_name", slackName) + BlankError("example_name", exampleName);
    BlankErrorsShape(slackName, exampleName);
  }

  /** The shape of the error list of two parameters of which at least one is blank. */
  lemma BlankErrorsShape(slackName: string, exampleName: string)
    requires !(ValidString(slackName) && ValidString(exampleName))
    ensures var errs := BlankError("slack_name", slackName) + BlankError("example_name", exampleName);
            && 1 <= |errs| <= 2
            && errs[0].field == (if ValidString(slackName) then "example_name" else "slack_name")
            && forall k | 0 <= k < |errs| ::
                 errs[k].field in {"slack_name", "example_name"} && errs[k].Error() == errs[k].field + " cannot be blank"
  {
    var a := ValidationError("slack_name", "slack_name" + " cannot be blank");
    var b := ValidationError("example_name", "example_name" + " cannot be blank");
    var errs := BlankError("slack_name", slackName) + BlankError("example_name", exampleName);
    if ValidString(slackName) {
      assert errs == [b];
    } else if ValidString(exampleName) {
      assert errs == [a];
    } else {
      assert errs == [a, b];
    }
  }

  /** The two URLs of a payload are the same constants for every request. */
  lemma UrlsIndependentOfInput(q1: Query, c1: Stamp, n1: Instant, q2: Query, c2: Stamp, n2: Instant)
    requires InfoHandler(q1, c1, n1).status == StatusOK && InfoHandler(q2, c2, n2).status == StatusOK
    ensures InfoHandler(q1, c1, n1).body.info.githubFileUrl == InfoHandler(q2, c2, n2).body.info.githubFileUrl
    ensures InfoHandler(q1, c1, n1).body.info.githubRepoUrl == InfoHandler(q2, c2, n2).body.info.githubRepoUrl
  {
  }

  /** The same request at two different times gets the same status and differs only in the clock fields. */
  lemma RepeatedRequestsAgree(query: Query, c1: Stamp, n1: Instant, c2: Stamp, n2: Instant)
    ensures var r1 := InfoHandler(query, c1, n1);
            var r2 := InfoHandler(query, c2, n2);
            && r1.status == r2.status
            && (r1.body.ErrorList? ==> r1.body == r2.body)
            && (r1.body.Info? ==>
                  r1.body.info.(currentDay := "", utcTime := 0) == r2.body.info.(currentDay := "", utcTime := 0))
  {
  }

  /** A request without parameters is rejected with both errors. */
  lemma NoParameters(clock: Stamp, now: Instant)
    ensures InfoHandler(map[], clock, now)
         == Reply(StatusUnprocessableEntity, ErrorList([
              ValidationError("slack_name", "slack_name cannot be blank"),
              ValidationError("example_name", "example_name cannot be blank")]))
  {
    var blank := "";
    assert QueryParam(map[], "slack_name") == blank && QueryParam(map[], "example_name") == blank;
    assert !ValidString(blank);
    HandlerReply(map[], clock, now);
    assert InfoHandler(map[], clock, now)
        == Reply(StatusUnprocessableEntity,
                 ErrorList(BlankError("slack_name", blank) + BlankError("example_name", blank)));
    BlankMessages();
    assert BlankError("slack_name", blank) == [ValidationError("slack_name", "slack_name cannot be blank")];
    assert BlankError("example_name", blank) == [ValidationError("example_name", "example_name cannot be blank")];
  }

  /** A whitespace-only slack_name is blank and is reported first. */
  lemma WhitespaceOnlyIsBlank(query: Query, clock: Stamp, now: Instant)
    requires "slack_name" in query && query["slack_name"] == ["   "]
    ensures var r := InfoHandler(query, clock, now);
            r.status == StatusUnprocessableEntity
            && r.body.errors[0] == ValidationError("slack_name", "slack_name cannot be blank")
  {
    var blank := "   ";
    assert forall k | 0 <= k < |blank| :: IsSpace(blank[k]);
    assert QueryParam(query, "slack_name") == blank && !ValidString(blank);
    HandlerReply(query, clock, now);
    BlankMessages();
  }

  /** Two non-blank names are answered with 200 and echoed unchanged. */
  lemma NonBlankNamesAccepted(clock: Stamp, now: Instant)
    ensures var r := InfoHandler(map["slack_name" := ["alice"], "example_name" := ["bob"]], clock, now);
            && r.status == StatusOK
            && r.body.info.slackName == "alice" && r.body.info.exampleName == "bob"
            && r.body.info.statusCode == StatusOK
            && r.body.info.currentDay == WeekdayName(clock.weekday)
  {
    var query := map["slack_name" := ["alice"], "example_name" := ["bob"]];
    assert QueryParam(query, "slack_name") == "alice" && !IsSpace("alice"[0]);
    assert QueryParam(query, "example_name") == "bob" && !IsSpace("bob"[0]);
    HandlerReply(query, clock, now);
  }
}
