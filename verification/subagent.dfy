/**
 * `subagent.py`: which agent is running, read from the transcript. The
 * transcript is given as its decoded entries, each reduced to what the
 * search looks at: the entry's `type` and, when `message.content` is a
 * list, its `tool_use` and `tool_result` items.
 */
module Subagent {
  import opened Results

  /** One item of a message's content list; missing fields are `None`. */
  datatype Item =
    | ToolUse(name: string, id: Option<string>, subagentType: Option<string>, description: Option<string>)
    | ToolResult(toolUseId: Option<string>)
    | OtherItem

  /** A transcript entry; `content` is `None` when `message.content` is a string summary. */
  datatype Entry = Entry(kind: string, content: Option<seq<Item>>)

  /** A `Task` call found in the transcript, with the index of its entry. */
  datatype TaskUse = TaskUse(toolUseId: Option<string>, subagentType: string, description: string, entryIndex: nat)

  /** The result of `identify_current_agent`: the main agent, or the subagent of an open `Task` call. */
  datatype Agent =
    | Main
    | SubagentOf(name: string, description: string, toolUseId: Option<string>)

  /** Whether an item calls the `Task` tool. */
  predicate IsTaskCall(item: Item) {
    item.ToolUse? && item.name == "Task"
  }

  /** The record made for a `Task` call at entry `idx`; the type defaults to `unknown`, the description to empty. */
  function UseOf(item: Item, idx: nat): TaskUse
    requires item.ToolUse?
  {
    TaskUse(item.id, item.subagentType.GetOr("unknown"), item.description.GetOr(""), idx)
  }

  /** The `Task` calls among the items of entry `idx`, in order. */
  function TaskCalls(items: seq<Item>, idx: nat): (r: seq<TaskUse>)
    ensures forall t :: t in r <==> exists item :: item in items && IsTaskCall(item) && t == UseOf(item, idx)
    decreases |items|
  {
    if items == [] then []
    else
      var rest := TaskCalls(items[1..], idx);
      assert forall item :: item in items <==> item == items[0] || item in items[1..];
      if IsTaskCall(items[0]) then [UseOf(items[0], idx)] + rest else rest
  }

  /** The `Task` calls an entry makes: only an assistant entry with list content makes any. */
  function CallsOf(e: Entry, idx: nat): seq<TaskUse> {
    if e.kind == "assistant" && e.content.Some? then TaskCalls(e.content.value, idx) else []
  }

  /** `find_task_tool_uses`: the `Task` calls of all entries, in transcript order. */
  function FindTaskToolUses(entries: seq<Entry>): (r: seq<TaskUse>)
    decreases |entries|
  {
    if entries == [] then []
    else
      var n := |entries| - 1;
      FindTaskToolUses(entries[..n]) + CallsOf(entries[n], n)
  }

  /** A `Task` call of entry `j`. */
  ghost predicate CalledAt(entries: seq<Entry>, j: nat, t: TaskUse) {
    j < |entries| && t in CallsOf(entries[j], j)
  }

  /**
   * The recorded calls are exactly the `Task` items of assistant entries
   * with list content, each carrying its entry's index.
   */
  lemma {:induction false} FindTaskToolUsesIff(entries: seq<Entry>, t: TaskUse)
    ensures t in FindTaskToolUses(entries) <==> CalledAt(entries, t.entryIndex, t)
    decreases |entries|
  {
    if entries != [] {
      var n := |entries| - 1;
      var init := entries[..n];
      FindTaskToolUsesIff(init, t);
      if t.entryIndex < n {
        assert init[t.entryIndex] == entries[t.entryIndex];
      }
      assert forall u :: u in CallsOf(entries[n], n) ==> u.entryIndex == n;
    }
  }

  /** Records in order of their entries. */
  predicate InOrder(ts: seq<TaskUse>) {
    forall a, b :: 0 <= a < b < |ts| ==> ts[a].entryIndex <= ts[b].entryIndex
  }

  /** The records come in transcript order. */
  lemma {:induction false} FindTaskToolUsesOrdered(entries: seq<Entry>)
    ensures InOrder(FindTaskToolUses(entries))
    ensures forall t :: t in FindTaskToolUses(entries) ==> t.entryIndex < |entries|
    decreases |entries|
  {
    if entries != [] {
      var n := |entries| - 1;
      FindTaskToolUsesOrdered(entries[..n]);
      var before := FindTaskToolUses(entries[..n]);
      var here := CallsOf(entries[n], n);
      assert forall u :: u in here ==> u.entryIndex == n;
      var r := before + here;
      assert InOrder(before);
      forall a, b | 0 <= a < b < |r|
        ensures r[a].entryIndex <= r[b].entryIndex
      {
        if b >= |before| {
          assert r[b] == here[b - |before|] && r[b] in here;
          if a < |before| {
            assert r[a] == before[a] && r[a] in before;
            assert r[a].entryIndex < n;
          } else {
            assert r[a] == here[a - |before|] && r[a] in here;
          }
        } else {
          assert r[a] == before[a] && r[b] == before[b];
        }
      }
    }
  }

  /** The non-empty ids the items of one entry answer. */
  function ResultIds(items: seq<Item>): (r: set<string>)
    ensures forall id :: id in r <==> ToolResult(Some(id)) in items && id != []
    decreases |items|
  {
    if items == [] then {}
    else
      var rest := ResultIds(items[1..]);
      assert forall item :: item in items <==> item == items[0] || item in items[1..];
      match items[0]
      case ToolResult(Some(id)) => if id != [] then {id} + rest else rest
      case _ => rest
  }

  /** The ids a user entry with list content answers. */
  function AnsweredBy(e: Entry): set<string> {
    if e.kind == "user" && e.content.Some? then ResultIds(e.content.value) else {}
  }

  /** `find_tool_results`: each answered id, mapped to the last entry that answers it. */
  function FindToolResults(entries: seq<Entry>): (r: map<string, nat>)
    decreases |entries|
  {
    if entries == [] then map[]
    else
      var n := |entries| - 1;
      FindToolResults(entries[..n]) + map id | id in AnsweredBy(entries[n]) :: n
  }

  /** Entry `j` is the last to answer `id`. */
  ghost predicate LastAnswer(entries: seq<Entry>, id: string, j: nat) {
    && j < |entries| && id in AnsweredBy(entries[j])
    && forall i :: j < i < |entries| ==> id !in AnsweredBy(entries[i])
  }

  /** An id is mapped exactly when some entry answers it. */
  lemma {:induction false} FindToolResultsDomain(entries: seq<Entry>, id: string)
    ensures id in FindToolResults(entries) <==> exists j :: 0 <= j < |entries| && id in AnsweredBy(entries[j])
    decreases |entries|
  {
    if entries != [] {
      var n := |entries| - 1;
      var init := entries[..n];
      FindToolResultsDomain(init, id);
      if id !in AnsweredBy(entries[n]) && id !in FindToolResults(init) {
        forall j | 0 <= j < n
          ensures id !in AnsweredBy(entries[j])
        {
          assert init[j] == entries[j];
        }
      } else if id !in AnsweredBy(entries[n]) {
        var j :| 0 <= j < n && id in AnsweredBy(init[j]);
        assert init[j] == entries[j];
      }
    }
  }

  /** A mapped id is mapped to the last entry that answers it. */
  lemma {:induction false} FindToolResultsLast(entries: seq<Entry>, id: string)
    requires id in FindToolResults(entries)
    ensures LastAnswer(entries, id, FindToolResults(entries)[id])
    decreases |entries|
  {
    var n := |entries| - 1;
    var init := entries[..n];
    if id !in AnsweredBy(entries[n]) {
      FindToolResultsLast(init, id);
      var j := FindToolResults(init)[id];
      assert FindToolResults(entries)[id] == j;
      assert init[j] == entries[j];
      forall i | j < i < n
        ensures id !in AnsweredBy(entries[i])
      {
        assert init[i] == entries[i];
      }
    }
  }

  /** A call is closed when its id was answered by a later entry. */
  predicate Closed(t: TaskUse, results: map<string, nat>) {
    t.toolUseId.Some? && t.toolUseId.value in results && results[t.toolUseId.value] > t.entryIndex
  }

  /** The loop of `identify_current_agent`: the last call that is not closed, if any. */
  function Select(tasks: seq<TaskUse>, results: map<string, nat>): (r: Agent)
    decreases |tasks|
  {
    if tasks == [] then Main
    else
      var t := tasks[|tasks| - 1];
      if Closed(t, results) then Select(tasks[..|tasks| - 1], results)
      else SubagentOf(t.subagentType, t.description, t.toolUseId)
  }

  /** The call at `k` is open and every later one is closed. */
  ghost predicate LatestOpen(tasks: seq<TaskUse>, results: map<string, nat>, k: nat) {
    && k < |tasks| && !Closed(tasks[k], results)
    && forall i :: k < i < |tasks| ==> Closed(tasks[i], results)
  }

  /**
   * The selection names the latest open call, with that call's type,
   * description and id; it is the main agent exactly when every call is closed.
   */
  lemma {:induction false} SelectLatestOpen(tasks: seq<TaskUse>, results: map<string, nat>)
    ensures Select(tasks, results).Main? <==> forall i :: 0 <= i < |tasks| ==> Closed(tasks[i], results)
    ensures Select(tasks, results).SubagentOf? ==> exists k: nat ::
      && LatestOpen(tasks, results, k)
      && Select(tasks, results) == SubagentOf(tasks[k].subagentType, tasks[k].description, tasks[k].toolUseId)
    decreases |tasks|
  {
    if tasks != [] {
      var n := |tasks| - 1;
      var init := tasks[..n];
      SelectLatestOpen(init, results);
      assert forall i :: 0 <= i < n ==> init[i] == tasks[i];
      if !Closed(tasks[n], results) {
        assert LatestOpen(tasks, results, n);
      } else if Select(init, results).SubagentOf? {
        var k: nat :| LatestOpen(init, results, k)
          && Select(init, results) == SubagentOf(init[k].subagentType, init[k].description, init[k].toolUseId);
        assert LatestOpen(tasks, results, k);
      }
    }
  }

  /** Some entry after the call's own answers its id. */
  ghost predicate AnsweredLater(entries: seq<Entry>, t: TaskUse) {
    t.toolUseId.Some? && exists i :: t.entryIndex < i < |entries| && t.toolUseId.value in AnsweredBy(entries[i])
  }

  /** Against the scanned results, a call is closed exactly when a later entry answers it. */
  lemma ClosedIff(entries: seq<Entry>, t: TaskUse)
    ensures Closed(t, FindToolResults(entries)) <==> AnsweredLater(entries, t)
  {
    if t.toolUseId.Some? {
      var id := t.toolUseId.value;
      FindToolResultsDomain(entries, id);
      if id in FindToolResults(entries) {
        FindToolResultsLast(entries, id);
      }
    }
  }

  /**
   * `identify_current_agent(path)` over the transcript's decoded entries:
   * no path means the main agent; otherwise the latest `Task` call that no
   * later entry answers names the subagent (`IdentifySubagent`), and the
   * main agent is running exactly when every call has been answered
   * (`IdentifyMainIff`).
   */
  function IdentifyCurrentAgent(transcriptPath: string, entries: seq<Entry>): (r: Agent)
    ensures transcriptPath == [] || entries == [] ==> r == Main
  {
    if transcriptPath == [] then Main
    else Select(FindTaskToolUses(entries), FindToolResults(entries))
  }

  /** With a transcript, the main agent is running exactly when every `Task` call has been answered by a later entry. */
  lemma IdentifyMainIff(transcriptPath: string, entries: seq<Entry>)
    requires transcriptPath != []
    ensures IdentifyCurrentAgent(transcriptPath, entries).Main? <==>
      forall t: TaskUse :: CalledAt(entries, t.entryIndex, t) ==> AnsweredLater(entries, t)
  {
    var tasks := FindTaskToolUses(entries);
    var results := FindToolResults(entries);
    SelectLatestOpen(tasks, results);
    if Select(tasks, results).Main? {
      forall t: TaskUse | CalledAt(entries, t.entryIndex, t)
        ensures AnsweredLater(entries, t)
      {
        FindTaskToolUsesIff(entries, t);
        var i :| 0 <= i < |tasks| && tasks[i] == t;
        ClosedIff(entries, t);
      }
    } else {
      var i :| 0 <= i < |tasks| && !Closed(tasks[i], results);
      var t := tasks[i];
      FindTaskToolUsesIff(entries, t);
      ClosedIff(entries, t);
      assert CalledAt(entries, t.entryIndex, t) && !AnsweredLater(entries, t);
    }
  }

  /**
   * The identified subagent comes from a `Task` call of an assistant entry
   * that no later entry answers, and every `Task` call recorded after it is
   * answered by a later entry: it is the latest open call.
   */
  lemma IdentifySubagent(transcriptPath: string, entries: seq<Entry>)
    requires IdentifyCurrentAgent(transcriptPath, entries).SubagentOf?
    ensures var a := IdentifyCurrentAgent(transcriptPath, entries);
      var tasks := FindTaskToolUses(entries);
      exists k :: 0 <= k < |tasks| &&
        var t := tasks[k];
        && CalledAt(entries, t.entryIndex, t)
        && a == SubagentOf(t.subagentType, t.description, t.toolUseId)
        && !AnsweredLater(entries, t)
        && forall i :: k < i < |tasks| ==> AnsweredLater(entries, tasks[i])
  {
    var tasks := FindTaskToolUses(entries);
    var results := FindToolResults(entries);
    SelectLatestOpen(tasks, results);
    var k: nat :| LatestOpen(tasks, results, k)
      && Select(tasks, results) == SubagentOf(tasks[k].subagentType, tasks[k].description, tasks[k].toolUseId);
    var t := tasks[k];
    FindTaskToolUsesIff(entries, t);
    ClosedIff(entries, t);
    forall i | k < i < |tasks|
      ensures AnsweredLater(entries, tasks[i])
    {
      ClosedIff(entries, tasks[i]);
    }
  }
}
