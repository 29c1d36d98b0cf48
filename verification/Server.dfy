/** The handlers at work on a service: each request changes the encrypted tree as
    its command changes the abstract store, and answers accordingly. */
module Server {
  import opened Options
  import opened Text
  import opened Json
  import opened Conditions
  import opened Rows
  import opened Query
  import opened Parsers
  import opened Storage
  import opened Service
  import opened Commands

  /** CREATE TABLE must name a dataset that gets a directory of its own. */
  predicate WellNamed(cmd: Command) { cmd.Create? ==> GoodName(cmd.dataset) }

  /** What one command must do to the tree and answer. */
  ghost predicate Handles(files: Files, at: Place, cmd: Command, files': Files, r: Response) {
    && Consistent(files, at) && Consistent(files', at)
    && AllTables(Abstract(files, at))
    && Abstract(files', at) == Update(Abstract(files, at), cmd)
    && Reply(Abstract(files, at), cmd, r)
  }

  class Handlers {
    const service: RoktService
    const pattern: AddPattern

    ghost predicate Valid()
      reads service.disk
    {
      service.Valid()
    }

    ghost function Contents(): Store
      reads service.disk
      requires Valid()
    {
      service.Contents()
    }

    constructor (service: RoktService, pattern: AddPattern)
      ensures this.service == service && this.pattern == pattern
    {
      this.service, this.pattern := service, pattern;
    }

    method HandleGet(p: GetParams) returns (r: Response)
      requires Valid()
      modifies service.disk
      ensures Handles(old(service.disk.files), service.at, Get(p), service.disk.files, r)
      ensures service.disk.files == old(service.disk.files)
    {
      hide IsGetBody, Consistent, Abstract, ReadOrHeal;
      ContentsAreTables(service.disk.files, service.at);
      var d := service.From(p.dataset);
      if d.None? { return Response(1, Nothing); }
      ReadIsRows(service.disk.files, service.at, p.dataset);
      var data := d.value.ReadDataset();
      var ok, body := AnswerGet(data.items, p);
      if !ok { return Response(3, Nothing); }
      return Response(0, Found(body));
    }

    method HandleRemove(p: RemoveParams) returns (r: Response)
      requires Valid() && p.conditions != []
      modifies service.disk
      ensures Handles(old(service.disk.files), service.at, Remove(p), service.disk.files, r)
    {
      hide Consistent, Abstract, ReadOrHeal, Save;
      ContentsAreTables(service.disk.files, service.at);
      var d := service.From(p.dataset);
      if d.None? { return Response(1, Nothing); }
      ReadIsRows(service.disk.files, service.at, p.dataset);
      var fullData := d.value.ReadDataset();
      var ok, newData, removedCount := RemoveRows(fullData.items, p.conditions);
      if !ok { return Response(3, Nothing); }
      KeptObjects(fullData.items, p.conditions);
      WriteIsLocal(service.disk.files, service.at, p.dataset, newData);
      d.value.Overwrite(Arr(newData));
      return Response(0, Commands.Removed(removedCount));
    }

    method HandleChange(p: ChangeParams) returns (r: Response)
      requires Valid()
      modifies service.disk
      ensures Handles(old(service.disk.files), service.at, Change(p), service.disk.files, r)
    {
      hide Consistent, Abstract, ReadOrHeal, Save;
      ContentsAreTables(service.disk.files, service.at);
      var d := service.From(p.dataset);
      if d.None? { return Response(1, Nothing); }
      ReadIsRows(service.disk.files, service.at, p.dataset);
      var data := d.value.ReadDataset();
      var ok, changed, changedCount := Query.ChangeRows(data.items, p.conditions, p.field, p.newValue);
      if !ok { return Response(3, Nothing); }
      WriteIsLocal(service.disk.files, service.at, p.dataset, changed);
      d.value.Overwrite(Arr(changed));
      return Response(0, Commands.ChangedRows(changedCount));
    }

    method HandleAdd(a: AddParts) returns (r: Response)
      requires Valid()
      modifies service.disk
      ensures Handles(old(service.disk.files), service.at, Add(a), service.disk.files, r)
    {
      hide Consistent, Abstract, ReadOrHeal, Save;
      ContentsAreTables(service.disk.files, service.at);
      if a.row.None? { return Response(11, Nothing); }
      var newData := a.row.value;
      if a.unique != "" {
        if !Contains(newData, a.unique) { return Response(12, Nothing); }
        var d := service.From(a.dataset);
        if d.None? { return Response(1, Nothing); }
        ReadIsRows(service.disk.files, service.at, a.dataset);
        var existingData := d.value.ReadData();
        var found := AlreadyExists(existingData.items, a.unique, Field(newData, a.unique).value);
        if found { return Response(10, Nothing); }
      }
      var d := service.From(a.dataset);
      if d.None? { return Response(1, Nothing); }
      ReadIsRows(service.disk.files, service.at, a.dataset);
      ghost var rows := Contents()[a.dataset];
      WriteIsLocal(service.disk.files, service.at, a.dataset, rows + [newData]);
      var code := d.value.Insert(newData);
      return Response(code.value, Nothing);
    }

    method HandleCount(dataset: string, condition: string) returns (r: Response)
      requires Valid()
      modifies service.disk
      ensures Handles(old(service.disk.files), service.at, Count(dataset, condition), service.disk.files, r)
      ensures service.disk.files == old(service.disk.files)
    {
      hide Consistent, Abstract, ReadOrHeal;
      ContentsAreTables(service.disk.files, service.at);
      var d := service.From(dataset);
      if d.None? { return Response(1, Nothing); }
      ReadIsRows(service.disk.files, service.at, dataset);
      var data := d.value.ReadDataset();
      if condition == "" { return Response(0, Counted(|data.items|)); }
      var pos := IndexOf(condition, ':');
      if pos == |condition| { return Response(423, Nothing); }
      var key, value := Trim(condition[..pos]), Trim(condition[pos + 1..]);
      var count := CountRows(data.items, key, value);
      return Response(0, Counted(count));
    }

    method HandleEmpty(dataset: string) returns (r: Response)
      requires Valid()
      modifies service.disk
      ensures Handles(old(service.disk.files), service.at, Empty(dataset), service.disk.files, r)
    {
      hide Consistent, Abstract, Save;
      ContentsAreTables(service.disk.files, service.at);
      var d := service.From(dataset);
      if d.None? { return Response(1, Nothing); }
      WriteIsLocal(service.disk.files, service.at, dataset, []);
      d.value.Overwrite(Arr([]));
      return Response(0, Nothing);
    }

    /** Dispatch of one request. */
    method Handle(request: string) returns (r: Response)
      requires Valid() && WellNamed(Decode(request, pattern))
      modifies service.disk
      ensures Handles(old(service.disk.files), service.at, Decode(request, pattern), service.disk.files, r)
    {
      hide Consistent, Abstract, IsGetBody, ParseGet, ParseRemove, ParseChange, Tokens, Trim;
      ContentsAreTables(service.disk.files, service.at);
      ParsedConditionsEvaluate(request);
      match Decode(request, pattern)
      case Create(ds) =>
        var code := service.Create(ds);
        r := Response(code, Nothing);
      case Drop(ds) =>
        var code := service.Drop(ds);
        r := Response(code, Nothing);
      case Empty(ds) => r := HandleEmpty(ds);
      case Add(a) => r := HandleAdd(a);
      case Get(p) =>
        var params := ParseGetCommand(request);
        r := HandleGet(params.value);
      case Remove(p) =>
        var params := ParseRemoveCommand(request);
        r := HandleRemove(params.value);
      case Change(p) =>
        var params := ParseChangeCommand(request);
        r := HandleChange(params.value);
      case Count(ds, condition) => r := HandleCount(ds, condition);
      case Refused(code) => r := Response(code, Nothing);
    }

    /** Requests served one after the other: the tree ends up representing the fold
        of the commands, and each answer fits the store its request found. */
    method Serve(requests: seq<string>) returns (answers: seq<Response>)
      requires Valid()
      requires forall i | 0 <= i < |requests| :: WellNamed(Decode(requests[i], pattern))
      modifies service.disk
      ensures Valid() && AllTables(old(Contents()))
      ensures Contents() == Run(old(Contents()), Decoded(requests, pattern))
      ensures AnswersFit(old(Contents()), Decoded(requests, pattern), answers)
    {
      hide Consistent, Abstract, Decode, Reply, Update;
      ContentsAreTables(service.disk.files, service.at);
      answers := [];
      ghost var cmds := Decoded(requests, pattern);
      for i := 0 to |requests|
        invariant Valid() && Contents() == Run(old(Contents()), cmds[..i])
        invariant AnswersFit(old(Contents()), cmds[..i], answers)
      {
        var r := Handle(requests[i]);
        assert cmds[..i + 1][..i] == cmds[..i];
        AnswersSnoc(old(Contents()), cmds[..i], answers, cmds[i], r);
        assert cmds[..i + 1] == cmds[..i] + [cmds[i]];
        answers := answers + [r];
      }
      assert cmds[..|cmds|] == cmds;
    }
  }

  lemma ContentsAreTables(files: Files, at: Place)
    requires Consistent(files, at)
    ensures AllTables(Abstract(files, at))
  {
    ConsistentTables(files, at);
  }

  function Decoded(requests: seq<string>, pattern: AddPattern): (cmds: seq<Command>)
    ensures |cmds| == |requests|
    ensures forall i | 0 <= i < |cmds| :: cmds[i] == Decode(requests[i], pattern)
  {
    seq(|requests|, i requires 0 <= i < |requests| => Decode(requests[i], pattern))
  }

  /** Answer i belongs to the store the first i commands lead to. */
  ghost predicate AnswersFit(store: Store, cmds: seq<Command>, answers: seq<Response>)
    requires AllTables(store)
  {
    |answers| == |cmds| && forall i | 0 <= i < |cmds| :: Reply(Run(store, cmds[..i]), cmds[i], answers[i])
  }

  lemma AnswersSnoc(store: Store, cmds: seq<Command>, answers: seq<Response>, cmd: Command, r: Response)
    requires AllTables(store) && AnswersFit(store, cmds, answers) && Reply(Run(store, cmds), cmd, r)
    ensures AnswersFit(store, cmds + [cmd], answers + [r])
  {
    hide Reply, Run;
    forall i | 0 <= i <= |cmds|
      ensures Reply(Run(store, (cmds + [cmd])[..i]), (cmds + [cmd])[i], (answers + [r])[i])
    {
      assert (cmds + [cmd])[..i] == cmds[..i];
      assert cmds[..|cmds|] == cmds;
    }
  }
}
