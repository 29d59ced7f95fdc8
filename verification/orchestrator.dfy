/** `main`: check the credentials, fetch, fill the template, upload. The outside world
    (the environment, the HTTP response, the template workbook, today's date and whether
    the upload goes through) is given as data, and a run is the list of effects it
    performs together with how it ends. */
module Orchestrator {
  import opened Options
  import opened Records
  import Dates
  import Report
  import Paths
  import Api

  /** The settings `main` reads from the process environment; `None` is an unset
      variable. Only whether `int()` accepts `SFTP_PORT` matters to the run. */
  datatype Environment = Environment(
    clientKey: Option<string>,
    clientSecret: Option<string>,
    accountName: Option<string>,
    accountId: Option<string>,
    sftpRemotePath: Option<string>,
    sftpPortParses: bool
  )

  /** The `results` entry of the response body as the loop over `data['results']`
      sees it: no such key (`KeyError`), a value the loop raises on (`null`, a number,
      or items that are not objects with the six keys), or the records it walks. An
      empty string or object under `results` iterates as no records at all. */
  datatype ResultsEntry = Absent | Unusable | Items(records: seq<ActivityRecord>)

  /** The decoded response body, a JSON object: its `results` entry and how many other
      keys it has. */
  datatype Body = Body(results: ResultsEntry, otherKeys: nat)

  /** What the outside world answers during one run. */
  datatype World = World(
    response: Option<Body>,
    template: Option<Report.Sheet>,
    today: Dates.CalendarDate,
    uploadSucceeds: bool
  )

  /** The template the script fills, in the working directory. */
  const TemplateFile: string := "template.xlsx"

  /** The remote directory when `SFTP_REMOTE_PATH` is unset. */
  const DefaultRemoteDir: string := "/"

  datatype Effect =
    | Fetch(url: string, user: string, password: string)
    | Save(fileName: string, sheet: Report.Sheet)
    | Upload(localFile: string, remotePath: string)

  /** How a run ends: stopped for missing credentials, stopped for an empty or failed
      fetch, stopped by an uncaught exception, or finished with or without a
      successful upload. */
  datatype Outcome = MissingCredentials | NoData | Crashed | Finished(uploaded: bool)

  datatype Run = Run(effects: seq<Effect>, outcome: Outcome)

  /** Python truthiness of an environment value: set and not empty. */
  predicate IsSet(v: Option<string>) {
    v.Some? && v.value != ""
  }

  predicate HasCredentials(env: Environment) {
    IsSet(env.clientKey) && IsSet(env.clientSecret) && IsSet(env.accountName) && IsSet(env.accountId)
  }

  /** Python truthiness of `fetch_api_data`'s result: not `None` and not `{}`. */
  predicate IsTruthy(response: Option<Body>) {
    response.Some? && (!response.value.results.Absent? || response.value.otherKeys > 0)
  }

  function GetOr(v: Option<string>, default: string): string {
    if v.Some? then v.value else default
  }

  /** The order every run keeps: each save comes after a fetch, and each upload comes
      after the save of the file it uploads. */
  ghost predicate WellOrdered(effects: seq<Effect>) {
    && (forall j :: 0 <= j < |effects| && effects[j].Save? ==>
          exists i :: 0 <= i < j && effects[i].Fetch?)
    && (forall j :: 0 <= j < |effects| && effects[j].Upload? ==>
          exists i :: 0 <= i < j && effects[i].Save? && effects[i].fileName == effects[j].localFile)
  }

  /** One run of `main`. */
  function RunReport(env: Environment, world: World): (run: Run)
    ensures !HasCredentials(env) ==> run.effects == [] && run.outcome == MissingCredentials
    ensures forall i :: 0 <= i < |run.effects| && run.effects[i].Save? ==>
      IsTruthy(world.response) && run.effects[i].fileName == Paths.OutputName(TemplateFile)
  {
    if !HasCredentials(env) then Run([], MissingCredentials)
    else
      var fetch := Fetch(Api.ApiUrl(env.accountName.value, env.accountId.value), env.clientKey.value, env.clientSecret.value);
      if !IsTruthy(world.response) then Run([fetch], NoData)
      else if world.template.None? || !world.response.value.results.Items? then Run([fetch], Crashed)
      else
        var output := Paths.OutputName(TemplateFile);
        var sheet := Report.Populate(world.template.value, Report.BuildRows(world.response.value.results.records, world.today));
        var save := Save(output, sheet);
        if !env.sftpPortParses then Run([fetch, save], Crashed)
        else
          var upload := Upload(output, Paths.RemotePath(GetOr(env.sftpRemotePath, DefaultRemoteDir), output));
          Run([fetch, save, upload], Finished(world.uploadSucceeds))
  }

  /** With credentials, the run starts with exactly one request, to the account's
      endpoint with the client key and secret as basic-auth user and password. */
  lemma FetchFirstAndOnce(env: Environment, world: World)
    requires HasCredentials(env)
    ensures var run := RunReport(env, world);
      && |run.effects| >= 1
      && run.effects[0] == Fetch(Api.ApiUrl(env.accountName.value, env.accountId.value), env.clientKey.value, env.clientSecret.value)
      && forall i :: 0 < i < |run.effects| ==> !run.effects[i].Fetch?
  {
  }

  /** A run is a prefix of fetch, save, upload, and the upload sends the saved file.
      Only a finished run gets as far as the upload. */
  lemma RunShape(env: Environment, world: World)
    ensures var run := RunReport(env, world);
      && |run.effects| <= 3
      && (|run.effects| >= 1 ==> run.effects[0].Fetch?)
      && (|run.effects| >= 2 ==> run.effects[1].Save?)
      && (|run.effects| == 3 ==> run.effects[2].Upload? && run.effects[2].localFile == run.effects[1].fileName)
      && (run.outcome.Finished? <==> |run.effects| == 3)
  {
    if HasCredentials(env) && IsTruthy(world.response) && world.template.Some?
       && world.response.value.results.Items? && env.sftpPortParses {
      var output := Paths.OutputName(TemplateFile);
      var upload := RunReport(env, world).effects[2];
      assert upload.Upload? && upload.localFile == output;
    }
  }

  /** Every run keeps the order fetch, save, upload, and a run that finishes has saved
      its file whether or not the upload succeeded. */
  lemma RunIsWellOrdered(env: Environment, world: World)
    ensures WellOrdered(RunReport(env, world).effects)
    ensures var run := RunReport(env, world);
      run.outcome.Finished? ==> exists i :: 0 <= i < |run.effects| && run.effects[i].Save?
  {
    var effects := RunReport(env, world).effects;
    RunShape(env, world);
    ShapeIsWellOrdered(effects);
  }

  lemma ShapeIsWellOrdered(effects: seq<Effect>)
    requires |effects| <= 3
    requires |effects| >= 1 ==> effects[0].Fetch?
    requires |effects| >= 2 ==> effects[1].Save?
    requires |effects| == 3 ==> effects[2].Upload? && effects[2].localFile == effects[1].fileName
    ensures WellOrdered(effects)
    ensures |effects| == 3 ==> exists i :: 0 <= i < |effects| && effects[i].Save?
  {
    if |effects| >= 2 {
      assert effects[0].Fetch?;
      assert effects[1].Save?;
    }
  }

  /** A response without usable records saves nothing: a falsy one ends the run
      quietly, and a truthy one whose `results` is missing or cannot be walked ends it
      with an exception before the workbook is saved. */
  lemma NoRecordsNoSave(env: Environment, world: World)
    requires HasCredentials(env)
    requires world.response.None? || !world.response.value.results.Items?
    ensures var run := RunReport(env, world);
      && |run.effects| == 1 && run.effects[0].Fetch?
      && run.outcome == (if IsTruthy(world.response) then Crashed else NoData)
  {
  }

  /** The populated workbook is saved as `populated_template.xlsx`. */
  lemma OutputFileName()
    ensures Paths.OutputName(TemplateFile) == "populated_template.xlsx"
  {
    assert '/' !in TemplateFile;
    Paths.BasenameOfPlainName(TemplateFile);
  }

  /** With credentials, a response whose `results` holds records, a template and a port
      that parses, the run fetches, saves the template with the records placed from
      row 6, and then uploads, whatever the upload's fate. */
  lemma HappyPath(env: Environment, world: World)
    requires HasCredentials(env) && IsTruthy(world.response) && world.response.value.results.Items?
    requires world.template.Some? && env.sftpPortParses
    ensures RunReport(env, world).outcome == Finished(world.uploadSucceeds)
    ensures |RunReport(env, world).effects| == 3
    ensures RunReport(env, world).effects[1].Save?
    ensures Report.Placed(world.template.value, RunReport(env, world).effects[1].sheet,
                          Report.BuildRows(world.response.value.results.records, world.today))
    ensures RunReport(env, world).effects[2].Upload?
  {
    var records := world.response.value.results.records;
    var sheet := Report.Populate(world.template.value, Report.BuildRows(records, world.today));
    assert RunReport(env, world).effects[1] == Save(Paths.OutputName(TemplateFile), sheet);
  }

  /** The upload sends the file that was saved, to the remote directory
      (`SFTP_REMOTE_PATH`, `/` when unset) joined with its base name. */
  lemma UploadsSavedFile(env: Environment, world: World)
    requires |RunReport(env, world).effects| == 3
    ensures var effects := RunReport(env, world).effects;
      && effects[1].Save? && effects[2].Upload?
      && effects[2].localFile == effects[1].fileName
      && effects[2].remotePath == Paths.RemotePath(GetOr(env.sftpRemotePath, DefaultRemoteDir), effects[1].fileName)
  {
  }
}
