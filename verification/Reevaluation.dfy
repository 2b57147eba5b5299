/** An inquiry's thread of questions and answers, and which question a re-evaluated answer goes back to. */
module Reevaluation {
  import opened Wrappers

  datatype Role = User | Assistant

  datatype Message = Message(id: nat, role: Role, content: string, supersedes: Option<nat>, ordinal: nat)

  // ----- Which query an answer goes back to

  function Position(messages: seq<Message>, id: nat): (i: int)
    ensures -1 <= i < |messages|
    ensures i >= 0 ==> messages[i].id == id
    ensures forall j | 0 <= j < |messages| && messages[j].id == id :: 0 <= i <= j
  {
    if messages == [] then -1
    else
      var before := messages[..|messages| - 1];
      if Position(before, id) >= 0 then Position(before, id)
      else if messages[|messages| - 1].id == id then |messages| - 1 else -1
  }

  ghost predicate DistinctIds(messages: seq<Message>) {
    forall i, j | 0 <= i < j < |messages| :: messages[i].id != messages[j].id
  }

  /** Every message that supersedes another in the thread comes after it. */
  ghost predicate Backwards(messages: seq<Message>) {
    forall i | 0 <= i < |messages| && messages[i].supersedes.Some? ::
      Position(messages, messages[i].supersedes.value) < i
  }

  /** The first answer of the supersedes chain that message i ends. */
  ghost function RootOf(messages: seq<Message>, i: nat): (r: nat)
    requires Backwards(messages) && i < |messages|
    ensures r <= i
    decreases i
  {
    if messages[i].supersedes.None? then i
    else
      var j := Position(messages, messages[i].supersedes.value);
      if j < 0 then i else RootOf(messages, j)
  }

  ghost function QueryFor(messages: seq<Message>, id: nat): Option<string>
    requires Backwards(messages)
  {
    var i := Position(messages, id);
    if i < 0 || messages[i].role != Assistant then None else QuestionBefore(messages, RootOf(messages, i))
  }

  function QuestionBefore(messages: seq<Message>, r: nat): Option<string>
    requires r < |messages|
  {
    if r == 0 || messages[r - 1].role != User then None else Some(messages[r - 1].content)
  }

  method IndexById(messages: seq<Message>) returns (byId: map<nat, Message>)
    requires DistinctIds(messages)
    ensures forall id :: id in byId <==> Position(messages, id) >= 0
    ensures forall id | id in byId :: byId[id] == messages[Position(messages, id)]
  {
    byId := map[];
    for k := 0 to |messages|
      invariant forall id :: id in byId <==> Position(messages[..k], id) >= 0
      invariant forall id | id in byId :: byId[id] == messages[Position(messages[..k], id)]
    {
      assert messages[..k + 1][..k] == messages[..k];
      byId := byId[messages[k].id := messages[k]];
    }
    assert messages[..|messages|] == messages;
  }

  method QueryForReEvaluation(messages: seq<Message>, id: nat) returns (query: Option<string>)
    requires DistinctIds(messages) && Backwards(messages)
    ensures query == QueryFor(messages, id)
  {
    var byId := IndexById(messages);
    if id !in byId || byId[id].role != Assistant {
      return None;
    }
    var root := byId[id];
    ghost var target: nat := Position(messages, id);
    ghost var at: nat := target;
    while root.supersedes.Some?
      invariant at < |messages| && root == messages[at] && RootOf(messages, at) == RootOf(messages, target)
      decreases at
    {
      if root.supersedes.value !in byId {
        break;
      }
      at := Position(messages, root.supersedes.value);
      root := byId[root.supersedes.value];
    }
    assert RootOf(messages, target) == at;
    for i := 0 to |messages|
      invariant i <= at
    {
      if messages[i].id != root.id {
        continue;
      }
      assert i == at;
      if i == 0 || messages[i - 1].role != User {
        return None;
      }
      return Some(messages[i - 1].content);
    }
    assert false;
  }

  // ----- The thread as it grows

  /**
   * The thread and the next unused identifier; for each answer, the query
   * that really produced it, or for a re-evaluated one its first answer; and
   * the answers whose first answer was stored right after its question.
   */
  datatype State = State(messages: seq<Message>, next: nat, asked: map<nat, string>, backed: set<nat>)

  const Empty := State([], 0, map[], {})

  function Append(s: State, role: Role, content: string, supersedes: Option<nat>): State {
    s.(messages := s.messages + [Message(s.next, role, content, supersedes, |s.messages|)], next := s.next + 1)
  }

  function AppendAnswer(s: State, content: string, supersedes: Option<nat>, query: string, backs: bool): State {
    Append(s, Assistant, content, supersedes).(asked := s.asked[s.next := query],
                                               backed := if backs then s.backed + {s.next} else s.backed)
  }

  /** The last message stored is the question the query asks. */
  predicate EndsWith(messages: seq<Message>, query: string) {
    messages != [] && messages[|messages| - 1].role == User && messages[|messages| - 1].content == query
  }

  /**
   * One append that succeeds. Searches and re-evaluations run side by side
   * and lose appends, so their steps come in any order and any may be
   * missing: a question, the answer of a search for some query, and the
   * answer of a re-evaluation.
   */
  datatype Step =
    | Question(query: string)
    | Reply(query: string, content: string)
    | Revision(target: nat, content: string)

  /** A re-evaluation for which no query is found is refused. */
  ghost function After(s: State, step: Step): State
    requires Invariant(s)
  {
    match step
    case Question(query) => Append(s, User, query, None)
    case Reply(query, content) => AppendAnswer(s, content, None, query, EndsWith(s.messages, query))
    case Revision(target, content) =>
      PointersGoBack(s);
      if QueryFor(s.messages, target).None? then s
      else
        QueryIsKnown(s, target);
        AppendAnswer(s, content, Some(target), s.asked[target], target in s.backed)
  }

  ghost function Run(steps: seq<Step>): (s: State)
    ensures Invariant(s)
  {
    if steps == [] then
      EmptyKeeps();
      Empty
    else
      StepKeeps(Run(steps[..|steps| - 1]), steps[|steps| - 1]);
      After(Run(steps[..|steps| - 1]), steps[|steps| - 1])
  }

  /**
   * An ordinary answer is backed if it follows its question; a re-evaluated one
   * names an earlier answer and shares its fate.
   */
  ghost predicate Placed(s: State, i: nat)
    requires i < |s.messages|
  {
    var m := s.messages[i];
    match m.role
    case User => m.supersedes == None && m.id !in s.asked
    case Assistant =>
      && m.id in s.asked
      && match m.supersedes {
           case None => m.id in s.backed <==> EndsWith(s.messages[..i], s.asked[m.id])
           case Some(p) =>
             && 0 <= Position(s.messages, p) < i && p in s.asked && s.asked[p] == s.asked[m.id]
             && (m.id in s.backed <==> p in s.backed)
         }
  }

  ghost predicate Numbered(s: State) {
    && (forall i | 0 <= i < |s.messages| :: s.messages[i].ordinal == i && s.messages[i].id < s.next)
    && DistinctIds(s.messages)
    && (forall id | id in s.asked :: Position(s.messages, id) >= 0)
    && (forall id | id in s.backed :: id in s.asked)
  }

  ghost predicate Invariant(s: State) {
    Numbered(s) && forall i | 0 <= i < |s.messages| :: Placed(s, i)
  }

  lemma PositionSnoc(messages: seq<Message>, m: Message, id: nat)
    ensures Position(messages + [m], id)
            == if Position(messages, id) >= 0 then Position(messages, id)
               else if m.id == id then |messages| else -1
  {
    assert (messages + [m])[..|messages|] == messages;
  }

  lemma NumberedSnoc(s: State, role: Role, content: string, supersedes: Option<nat>)
    requires Numbered(s)
    ensures Numbered(Append(s, role, content, supersedes))
    ensures Position(Append(s, role, content, supersedes).messages, s.next) == |s.messages|
    ensures s.next !in s.asked && s.next !in s.backed
  {
    var m := Message(s.next, role, content, supersedes, |s.messages|);
    forall id ensures Position(s.messages, id) >= 0 ==> Position(s.messages + [m], id) >= 0 {
      PositionSnoc(s.messages, m, id);
    }
    PositionSnoc(s.messages, m, s.next);
  }

  /** The later state has what was recorded of the earlier one's messages. */
  ghost predicate Extends(s: State, s': State) {
    && s.messages <= s'.messages && |s'.messages| == |s.messages| + 1
    && (forall id | id in s.asked :: id in s'.asked && s'.asked[id] == s.asked[id])
    && (forall id | id in s'.asked && id !in s.asked :: id >= s.next)
    && (forall id | id < s.next :: id in s'.backed <==> id in s.backed)
  }

  /** A later append leaves a message where it was and what was recorded of it. */
  lemma PlacedStays(s: State, s': State, i: nat)
    requires Numbered(s) && Extends(s, s') && i < |s.messages| && Placed(s, i)
    requires forall j | 0 <= j < |s.messages| ::
               Position(s'.messages, s.messages[j].id) == Position(s.messages, s.messages[j].id)
    ensures Placed(s', i)
  {
    assert s'.messages[i] == s.messages[i];
    assert s'.messages[..i] == s.messages[..i];
  }

  lemma AllStay(s: State, s': State)
    requires Invariant(s) && Extends(s, s')
    ensures forall i | 0 <= i < |s.messages| :: Placed(s', i)
  {
    hide Placed;
    var m := s'.messages[|s.messages|];
    assert s'.messages == s.messages + [m];
    forall j | 0 <= j < |s.messages|
      ensures Position(s'.messages, s.messages[j].id) == Position(s.messages, s.messages[j].id)
    {
      PositionSnoc(s.messages, m, s.messages[j].id);
    }
    forall i | 0 <= i < |s.messages| ensures Placed(s', i) {
      PlacedStays(s, s', i);
    }
  }

  lemma QuestionKeeps(s: State, query: string)
    requires Invariant(s)
    ensures Invariant(Append(s, User, query, None))
  {
    var s' := Append(s, User, query, None);
    NumberedSnoc(s, User, query, None);
    AllStay(s, s');
  }

  lemma AnswerKeeps(s: State, content: string, supersedes: Option<nat>, query: string, backs: bool)
    requires Invariant(s)
    requires match supersedes {
               case None => backs <==> EndsWith(s.messages, query)
               case Some(p) => p in s.asked && s.asked[p] == query && (backs <==> p in s.backed)
             }
    ensures Invariant(AppendAnswer(s, content, supersedes, query, backs))
  {
    hide Placed, Numbered;
    var s' := AppendAnswer(s, content, supersedes, query, backs);
    NumberedSnoc(s, Assistant, content, supersedes);
    NumberedAnswer(s, content, supersedes, query, backs);
    AllStay(s, s');
    AnswerPlaced(s, content, supersedes, query, backs);
  }

  lemma NumberedAnswer(s: State, content: string, supersedes: Option<nat>, query: string, backs: bool)
    requires Numbered(s)
    ensures Numbered(AppendAnswer(s, content, supersedes, query, backs))
  {
    hide DistinctIds;
    NumberedSnoc(s, Assistant, content, supersedes);
  }

  lemma AnswerPlaced(s: State, content: string, supersedes: Option<nat>, query: string, backs: bool)
    requires Numbered(s) && s.next !in s.asked && s.next !in s.backed
    requires match supersedes {
               case None => backs <==> EndsWith(s.messages, query)
               case Some(p) => p in s.asked && s.asked[p] == query && (backs <==> p in s.backed)
             }
    ensures Placed(AppendAnswer(s, content, supersedes, query, backs), |s.messages|)
  {
    hide DistinctIds;
    var m := Message(s.next, Assistant, content, supersedes, |s.messages|);
    assert (s.messages + [m])[..|s.messages|] == s.messages;
    if supersedes.Some? {
      PositionSnoc(s.messages, m, supersedes.value);
    }
  }

  lemma StepKeeps(s: State, step: Step)
    requires Invariant(s)
    ensures Invariant(After(s, step))
  {
    hide Invariant;
    match step
    case Question(query) => QuestionKeeps(s, query);
    case Reply(query, content) => AnswerKeeps(s, content, None, query, EndsWith(s.messages, query));
    case Revision(target, content) =>
      PointersGoBack(s);
      if QueryFor(s.messages, target).Some? {
        QueryIsKnown(s, target);
        AnswerKeeps(s, content, Some(target), s.asked[target], target in s.backed);
      }
  }

  lemma EmptyKeeps()
    ensures Invariant(Empty)
  {
  }

  /** Supersedes pointers go backwards, so every walk to a root ends. */
  lemma PointersGoBack(s: State)
    requires Invariant(s)
    ensures DistinctIds(s.messages) && Backwards(s.messages)
  {
    forall i | 0 <= i < |s.messages| && s.messages[i].supersedes.Some?
      ensures Position(s.messages, s.messages[i].supersedes.value) < i
    {
      assert Placed(s, i);
    }
  }

  /** Only answers have a query. */
  lemma QueryIsKnown(s: State, id: nat)
    requires Invariant(s) && Backwards(s.messages)
    ensures id !in s.asked ==> QueryFor(s.messages, id).None?
  {
    var i := Position(s.messages, id);
    if i >= 0 {
      assert Placed(s, i);
    }
  }

  // ----- Which answers find their own query

  lemma {:induction false} RootAnswers(s: State, i: nat)
    requires Invariant(s) && Backwards(s.messages)
    requires i < |s.messages| && s.messages[i].role == Assistant
    ensures s.messages[i].id in s.asked
    ensures QuestionBefore(s.messages, RootOf(s.messages, i)) == Some(s.asked[s.messages[i].id])
            <==> s.messages[i].id in s.backed
    decreases i
  {
    assert Placed(s, i);
    if s.messages[i].supersedes.Some? {
      var j := Position(s.messages, s.messages[i].supersedes.value);
      assert Placed(s, j);
      RootAnswers(s, j);
    } else if i > 0 {
      assert s.messages[..i][i - 1] == s.messages[i - 1];
    }
  }

  /**
   * In every run, an answer finds the query that produced its first answer
   * exactly if it is backed; nothing else finds any.
   */
  lemma FindsItsOwn(s: State, id: nat)
    requires Invariant(s) && Backwards(s.messages)
    ensures id in s.asked ==> (QueryFor(s.messages, id) == Some(s.asked[id]) <==> id in s.backed)
    ensures id !in s.asked ==> QueryFor(s.messages, id) == None
  {
    QueryIsKnown(s, id);
    var i := Position(s.messages, id);
    if id in s.asked {
      assert Placed(s, i);
      RootAnswers(s, i);
    }
  }

  lemma RunSnoc(steps: seq<Step>, step: Step)
    ensures Run(steps + [step]) == After(Run(steps), step)
  {
    hide After;
    assert (steps + [step])[..|steps|] == steps;
  }

  /** What was recorded of an answer never changes. */
  lemma RecordStays(s: State, step: Step, id: nat)
    requires Invariant(s) && id in s.asked
    ensures var t := After(s, step); id in t.asked && t.asked[id] == s.asked[id] && (id in t.backed <==> id in s.backed)
  {
    hide QueryFor, Backwards;
    assert s.next !in s.asked by {
      assert Position(s.messages, id) >= 0;
      NumberedSnoc(s, User, "", None);
    }
  }

  lemma {:induction false} RecordKept(steps: seq<Step>, later: seq<Step>, id: nat)
    requires id in Run(steps).asked
    ensures var s, t := Run(steps), Run(steps + later);
            id in t.asked && t.asked[id] == s.asked[id] && (id in t.backed <==> id in s.backed)
  {
    hide After, Invariant;
    if later == [] {
      assert steps + later == steps;
    } else {
      var init, last := later[..|later| - 1], later[|later| - 1];
      RecordKept(steps, init, id);
      RunSnoc(steps + init, last);
      RecordStays(Run(steps + init), last, id);
      assert steps + later == steps + init + [last];
    }
  }

  /**
   * However searches and re-evaluations interleave and whatever appends they
   * lose: an ordinary answer is re-evaluated with its own query, then and
   * ever after, exactly if the last message stored when it is appended is
   * that query's question.
   */
  lemma ReplyFindsItsOwn(steps: seq<Step>, query: string, content: string, later: seq<Step>)
    ensures var id, all := Run(steps).next, steps + [Reply(query, content)] + later;
            && Backwards(Run(all).messages)
            && (QueryFor(Run(all).messages, id) == Some(query) <==> EndsWith(Run(steps).messages, query))
  {
    hide Invariant, QueryFor;
    var id, all := Run(steps).next, steps + [Reply(query, content)] + later;
    RunSnoc(steps, Reply(query, content));
    NextIsNew(Run(steps));
    RecordKept(steps + [Reply(query, content)], later, id);
    PointersGoBack(Run(all));
    FindsItsOwn(Run(all), id);
  }

  lemma NextIsNew(s: State)
    requires Invariant(s)
    ensures s.next !in s.asked && s.next !in s.backed
  {
    NumberedSnoc(s, User, "", None);
  }

  /**
   * A re-evaluated answer goes back to the same query as the answer it
   * supersedes, however often that was superseded.
   */
  lemma RevisionFindsTheSame(steps: seq<Step>, target: nat, content: string, later: seq<Step>)
    requires Backwards(Run(steps).messages) && QueryFor(Run(steps).messages, target).Some?
    ensures var s, all := Run(steps), steps + [Revision(target, content)] + later;
            && Backwards(Run(all).messages) && target in s.asked
            && s.next in Run(all).asked && Run(all).asked[s.next] == s.asked[target]
            && (QueryFor(Run(all).messages, s.next) == Some(s.asked[target])
                <==> QueryFor(s.messages, target) == Some(s.asked[target]))
  {
    hide Invariant, QueryFor;
    var s, all := Run(steps), steps + [Revision(target, content)] + later;
    RunSnoc(steps, Revision(target, content));
    QueryIsKnown(s, target);
    NextIsNew(s);
    RecordKept(steps + [Revision(target, content)], later, s.next);
    PointersGoBack(Run(all));
    FindsItsOwn(Run(all), s.next);
    FindsItsOwn(s, target);
  }

  // ----- One search at a time

  /**
   * A search or a re-evaluation that runs alone. Its answer is missing when
   * the pipeline fails, and its appends may be lost.
   */
  datatype Turn =
    | Search(query: string, asks: bool, answer: Option<string>, replies: bool)
    | Reevaluate(target: nat, answer: Option<string>, replies: bool)

  function StepsOf(turn: Turn): seq<Step> {
    match turn
    case Search(query, asks, answer, replies) =>
      (if asks then [Question(query)] else [])
      + (if answer.Some? && replies then [Reply(query, answer.value)] else [])
    case Reevaluate(target, answer, replies) =>
      if answer.Some? && replies then [Revision(target, answer.value)] else []
  }

  function AllSteps(turns: seq<Turn>): seq<Step> {
    if turns == [] then [] else AllSteps(turns[..|turns| - 1]) + StepsOf(turns[|turns| - 1])
  }

  ghost predicate KeepsQuestion(turn: Turn) {
    turn.Search? ==> turn.asks
  }

  ghost predicate AllBacked(s: State) {
    forall id | id in s.asked :: id in s.backed
  }

  lemma StepBacked(s: State, step: Step)
    requires Invariant(s) && AllBacked(s)
    requires step.Reply? ==> EndsWith(s.messages, step.query)
    ensures AllBacked(After(s, step))
  {
    if step.Revision? {
      PointersGoBack(s);
      QueryIsKnown(s, step.target);
    }
  }

  lemma TurnBacked(steps: seq<Step>, turn: Turn)
    requires AllBacked(Run(steps)) && KeepsQuestion(turn)
    ensures AllBacked(Run(steps + StepsOf(turn)))
  {
    hide AllBacked, Invariant, After;
    match turn
    case Search(query, asks, answer, replies) =>
      RunSnoc(steps, Question(query));
      StepBacked(Run(steps), Question(query));
      AskedLast(Run(steps), query);
      if answer.Some? && replies {
        var reply := Reply(query, answer.value);
        RunSnoc(steps + [Question(query)], reply);
        StepBacked(Run(steps + [Question(query)]), reply);
        assert steps + StepsOf(turn) == steps + [Question(query)] + [reply];
      } else {
        assert steps + StepsOf(turn) == steps + [Question(query)];
      }
    case Reevaluate(target, answer, replies) =>
      if answer.Some? && replies {
        RunSnoc(steps, Revision(target, answer.value));
        StepBacked(Run(steps), Revision(target, answer.value));
      } else {
        assert steps + [] == steps;
      }
  }

  lemma AskedLast(s: State, query: string)
    requires Invariant(s)
    ensures EndsWith(After(s, Question(query)).messages, query)
  {
  }

  lemma {:induction false} TurnsBacked(turns: seq<Turn>)
    requires forall turn | turn in turns :: KeepsQuestion(turn)
    ensures AllBacked(Run(AllSteps(turns)))
  {
    hide AllBacked, StepsOf, Run, KeepsQuestion;
    if turns == [] {
      NothingBacked();
    } else {
      TurnsBacked(turns[..|turns| - 1]);
      TurnBacked(AllSteps(turns[..|turns| - 1]), turns[|turns| - 1]);
    }
  }

  lemma NothingBacked()
    ensures AllBacked(Run([]))
  {
  }

  /**
   * In every thread of searches and re-evaluations one at a time, some
   * failing and some losing their answers, re-evaluating an answer, however
   * often superseded, asks exactly the query that produced its first answer;
   * nothing else can be re-evaluated.
   */
  lemma ReevaluatesItsOwnQuery(turns: seq<Turn>, id: nat)
    requires forall turn | turn in turns :: KeepsQuestion(turn)
    ensures var s := Run(AllSteps(turns));
            && Backwards(s.messages)
            && QueryFor(s.messages, id) == if id in s.asked then Some(s.asked[id]) else None
  {
    TurnsBacked(turns);
    PointersGoBack(Run(AllSteps(turns)));
    FindsItsOwn(Run(AllSteps(turns)), id);
  }

  // ----- Two runs that go wrong

  lemma RunTwo(a: Step, b: Step)
    ensures Run([]) == Empty && Run([a]) == After(Run([]), a) && Run([a, b]) == After(Run([a]), b)
  {
    hide After, Invariant;
    RunSnoc([], a);
    assert [] + [a] == [a];
    RunSnoc([a], b);
    assert [a] + [b] == [a, b];
  }

  /** Two overlapping searches: the first answer goes back to the second question, the second answer to none. */
  lemma InterleavedSearches(first: string, second: string, a: string, b: string)
    ensures var s := Run([Question(first), Question(second)] + [Reply(first, a)] + [Reply(second, b)]);
            && Backwards(s.messages)
            && s.asked == map[2 := first, 3 := second]
            && QueryFor(s.messages, 2) == Some(second) && QueryFor(s.messages, 3) == None
  {
    RunTwo(Question(first), Question(second));
    RunSnoc([Question(first), Question(second)], Reply(first, a));
    RunSnoc([Question(first), Question(second)] + [Reply(first, a)], Reply(second, b));
    var s := Run([Question(first), Question(second)] + [Reply(first, a)] + [Reply(second, b)]);
    PointersGoBack(s);
    hide Run;
    assert s.messages == [Message(0, User, first, None, 0), Message(1, User, second, None, 1),
                          Message(2, Assistant, a, None, 2), Message(3, Assistant, b, None, 3)];
    assert s.messages[2].id == 2 && s.messages[3].id == 3;
    assert Position(s.messages, 2) == 2 && Position(s.messages, 3) == 3;
  }

  /** A failed search, then one whose question is lost: its answer goes back to the failed search's question. */
  lemma LostQuestion(failed: string, query: string, answer: string)
    ensures var s := Run(AllSteps([Search(failed, true, None, true), Search(query, false, Some(answer), true)]));
            && Backwards(s.messages) && s.asked == map[1 := query] && QueryFor(s.messages, 1) == Some(failed)
  {
    LostSteps(failed, query, answer);
    RunTwo(Question(failed), Reply(query, answer));
    var s := Run([Question(failed), Reply(query, answer)]);
    PointersGoBack(s);
    hide Run, AllSteps;
    assert s.messages == [Message(0, User, failed, None, 0), Message(1, Assistant, answer, None, 1)];
    assert s.messages[1].id == 1;
    assert Position(s.messages, 1) == 1;
  }

  lemma LostSteps(failed: string, query: string, answer: string)
    ensures AllSteps([Search(failed, true, None, true), Search(query, false, Some(answer), true)])
         == [Question(failed), Reply(query, answer)]
  {
    var lost := [Search(failed, true, None, true), Search(query, false, Some(answer), true)];
    assert lost[..1][..0] == [] && AllSteps(lost[..1]) == [Question(failed)];
  }

  // ----- The thread as a stateful object

  /** Whether the answer appended by step will find its own query. */
  ghost predicate Backs(s: State, supersedes: Option<nat>, step: Step) {
    if supersedes.Some? then supersedes.value in s.backed
    else step.Reply? && EndsWith(s.messages, step.query)
  }

  lemma AnswerStep(s: State, content: string, supersedes: Option<nat>, step: Step)
    requires Invariant(s) && Backwards(s.messages)
    requires match supersedes {
               case None => step.Reply? && step.content == content
               case Some(p) => step == Revision(p, content) && QueryFor(s.messages, p).Some?
             }
    ensures supersedes.Some? ==> supersedes.value in s.asked
    ensures After(s, step) == AppendAnswer(s, content, supersedes,
                                           if supersedes.None? then step.query else s.asked[supersedes.value],
                                           Backs(s, supersedes, step))
  {
    hide Invariant, QueryFor;
    if supersedes.Some? {
      QueryIsKnown(s, supersedes.value);
    }
  }

  class Thread {
    var messages: seq<Message>
    var next: nat
    ghost var asked: map<nat, string>
    ghost var backed: set<nat>

    ghost function Abstract(): State
      reads this
    {
      State(messages, next, asked, backed)
    }

    constructor ()
      ensures Abstract() == Empty
    {
      messages, next, asked, backed := [], 0, map[], {};
    }

    method AppendMessage(role: Role, content: string, supersedes: Option<nat>)
      modifies this`messages, this`next
      ensures Abstract() == Append(old(Abstract()), role, content, supersedes)
      ensures messages == old(messages) + [Message(old(next), role, content, supersedes, |old(messages)|)]
    {
      messages := messages + [Message(next, role, content, supersedes, |messages|)];
      next := next + 1;
    }

    /** Stores a search's question, unless the append fails, which is only logged. */
    method PersistUserMessage(query: string, stored: bool)
      requires Invariant(Abstract())
      modifies this
      ensures Invariant(Abstract())
      ensures Abstract() == if stored then After(old(Abstract()), Question(query)) else old(Abstract())
    {
      StepKeeps(Abstract(), Question(query));
      if stored {
        AppendMessage(User, query, None);
      }
    }

    /** Stores an answer, unless the append fails, which is only logged. */
    method PersistAssistantMessage(content: string, supersedes: Option<nat>, stored: bool, ghost step: Step)
      requires Invariant(Abstract()) && Backwards(messages)
      requires match supersedes {
                 case None => step.Reply? && step.content == content
                 case Some(p) => step == Revision(p, content) && QueryFor(messages, p).Some?
               }
      modifies this
      ensures Invariant(Abstract())
      ensures Abstract() == if stored then After(old(Abstract()), step) else old(Abstract())
    {
      hide After, Invariant;
      StepKeeps(Abstract(), step);
      AnswerStep(Abstract(), content, supersedes, step);
      if stored {
        ghost var backs := Backs(Abstract(), supersedes, step);
        asked := asked[next := if supersedes.None? then step.query else asked[supersedes.value]];
        backed := if backs then backed + {next} else backed;
        AppendMessage(Assistant, content, supersedes);
      }
    }

    /** A search that nothing overlaps. */
    method SearchAlone(turn: Turn)
      requires Invariant(Abstract()) && turn.Search?
      modifies this
      ensures Invariant(Abstract())
      ensures Abstract() == AfterAll(old(Abstract()), StepsOf(turn))
    {
      hide After, Invariant;
      ghost var start := Abstract();
      PersistUserMessage(turn.query, turn.asks);
      AfterFirst(start, turn);
      if turn.answer.Some? {
        PointersGoBack(Abstract());
        PersistAssistantMessage(turn.answer.value, None, turn.replies, Reply(turn.query, turn.answer.value));
      }
    }

    /** Finds the query to re-run for target; its answer is None when that is refused. */
    method FindQuery(target: nat) returns (query: Option<string>)
      requires Invariant(Abstract())
      ensures Backwards(messages) && query == QueryFor(messages, target)
      ensures query.Some? ==> target in asked && (query == Some(asked[target]) <==> target in backed)
    {
      PointersGoBack(Abstract());
      FindsItsOwn(Abstract(), target);
      query := QueryForReEvaluation(messages, target);
    }

    /** Re-runs the query found for target; a message without one is refused and nothing is appended. */
    method ReevaluateAlone(turn: Turn) returns (query: Option<string>)
      requires Invariant(Abstract()) && turn.Reevaluate?
      modifies this
      ensures Invariant(Abstract())
      ensures old(Backwards(messages)) && query == old(QueryFor(messages, turn.target))
      ensures Abstract() == AfterAll(old(Abstract()), StepsOf(turn))
    {
      hide After, Invariant;
      RefusedStays(Abstract(), turn);
      query := FindQuery(turn.target);
      if query.None? || turn.answer.None? {
        return;
      }
      PersistAssistantMessage(turn.answer.value, Some(turn.target), turn.replies,
                              Revision(turn.target, turn.answer.value));
    }
  }

  ghost function AfterAll(s: State, steps: seq<Step>): (t: State)
    requires Invariant(s)
    ensures Invariant(t)
    decreases |steps|
  {
    if steps == [] then s
    else
      StepKeeps(s, steps[0]);
      AfterAll(After(s, steps[0]), steps[1..])
  }

  lemma AfterOne(s: State, step: Step)
    requires Invariant(s)
    ensures AfterAll(s, [step]) == After(s, step)
  {
    hide After, Invariant;
    StepKeeps(s, step);
    assert [step][1..] == [];
  }

  lemma AfterFirst(s: State, turn: Turn)
    requires Invariant(s) && turn.Search?
    ensures var asked := if turn.asks then After(s, Question(turn.query)) else s;
            && Invariant(asked)
            && AfterAll(s, StepsOf(turn))
               == if turn.answer.Some? && turn.replies
                  then After(asked, Reply(turn.query, turn.answer.value)) else asked
  {
    hide After, Invariant;
    StepKeeps(s, Question(turn.query));
    var rest := if turn.answer.Some? && turn.replies then [Reply(turn.query, turn.answer.value)] else [];
    var asked := if turn.asks then After(s, Question(turn.query)) else s;
    if turn.asks {
      assert StepsOf(turn)[1..] == rest;
    } else {
      assert StepsOf(turn) == rest;
    }
    if rest != [] {
      AfterOne(asked, rest[0]);
    }
  }

  lemma RefusedStays(s: State, turn: Turn)
    requires Invariant(s) && turn.Reevaluate?
    ensures Backwards(s.messages)
    ensures AfterAll(s, StepsOf(turn))
            == if turn.answer.Some? && turn.replies then After(s, Revision(turn.target, turn.answer.value)) else s
    ensures QueryFor(s.messages, turn.target).None? && turn.answer.Some? ==>
              After(s, Revision(turn.target, turn.answer.value)) == s
  {
    PointersGoBack(s);
    if turn.answer.Some? && turn.replies {
      AfterOne(s, Revision(turn.target, turn.answer.value));
    }
  }

  // ----- A query read early is the query read late

  lemma {:induction false} RootStays(messages: seq<Message>, m: Message, i: nat)
    requires Backwards(messages) && Backwards(messages + [m]) && i < |messages|
    requires forall j | 0 <= j < |messages| && messages[j].supersedes.Some? ::
               Position(messages, messages[j].supersedes.value) >= 0
    ensures RootOf(messages + [m], i) == RootOf(messages, i)
    decreases i
  {
    var all := messages + [m];
    assert all[i] == messages[i];
    if messages[i].supersedes.Some? {
      var p := messages[i].supersedes.value;
      PositionSnoc(messages, m, p);
      RootStays(messages, m, Position(messages, p));
    }
  }

  /** Appends between reading a re-evaluation's query and storing its answer do not change the query. */
  lemma QueryStays(s: State, step: Step, target: nat)
    requires Invariant(s) && target in s.asked
    ensures Backwards(s.messages) && Backwards(After(s, step).messages)
    ensures QueryFor(After(s, step).messages, target) == QueryFor(s.messages, target)
  {
    hide After, Invariant;
    var t := After(s, step);
    PointersGoBack(s);
    StepKeeps(s, step);
    PointersGoBack(t);
    AfterAppends(s, step);
    if t.messages != s.messages {
      var m := t.messages[|s.messages|];
      PositionSnoc(s.messages, m, target);
      PointersFound(s, target);
      RootStays(s.messages, m, Position(s.messages, target));
    }
  }

  lemma AfterAppends(s: State, step: Step)
    requires Invariant(s)
    ensures var t := After(s, step).messages;
            t == s.messages || (|t| == |s.messages| + 1 && t == s.messages + [t[|s.messages|]])
  {
    hide Invariant, QueryFor, Backwards;
  }

  lemma PointersFound(s: State, id: nat)
    requires Invariant(s) && id in s.asked
    ensures Position(s.messages, id) >= 0
    ensures forall j | 0 <= j < |s.messages| && s.messages[j].supersedes.Some? ::
              Position(s.messages, s.messages[j].supersedes.value) >= 0
  {
    forall j | 0 <= j < |s.messages| && s.messages[j].supersedes.Some?
      ensures Position(s.messages, s.messages[j].supersedes.value) >= 0
    {
      assert Placed(s, j);
    }
  }
}
