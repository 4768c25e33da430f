/** Message topics of five parts, and the turn from a topic to that of its answer. */
module Topic {
  import opened Wrappers

  const APP_NAME := "PLCServiceGW"

  datatype Operator = Set | Get | Action | Notify

  datatype InfoType = Request | Response | Event | Spont

  datatype Topic = Topic(app: string, operator: Operator, infoType: InfoType, target: string, object_: string)

  datatype TopicError = BadTopic | BadTarget | BadOperator | BadInfoType

  function OperatorName(o: Operator): string {
    match o
    case Set => "set"
    case Get => "get"
    case Action => "action"
    case Notify => "notify"
  }

  function OperatorOf(s: string): (o: Option<Operator>)
    ensures forall x :: o == Some(x) <==> s == OperatorName(x)
  {
    DifferentNames();
    if s == "set" then Some(Set) else if s == "get" then Some(Get)
    else if s == "action" then Some(Action) else if s == "notify" then Some(Notify) else None
  }

  lemma DifferentNames()
    ensures "set" != "get" && "action" != "notify"
  {
    assert "set"[0] == 's' && "action"[0] == 'a';
  }

  function InfoTypeName(t: InfoType): string {
    match t
    case Request => "request"
    case Response => "response"
    case Event => "event"
    case Spont => "spont"
  }

  function InfoTypeOf(s: string): (t: Option<InfoType>)
    ensures forall x :: t == Some(x) <==> s == InfoTypeName(x)
  {
    DifferentTypes();
    if s == "request" then Some(Request) else if s == "response" then Some(Response)
    else if s == "event" then Some(Event) else if s == "spont" then Some(Spont) else None
  }

  lemma DifferentTypes()
    ensures "event" != "spont"
  {
    assert "event"[0] == 'e';
  }

  // ---- parts ----

  /** The parts between the slashes, one more than there are slashes. */
  function Split(s: string): (parts: seq<string>)
    ensures parts != [] && forall p :: p in parts ==> '/' !in p
  {
    if s == "" then [""]
    else
      var rest := Split(s[1..]);
      if s[0] == '/' then [""] + rest else [[s[0]] + rest[0]] + rest[1..]
  }

  function Join(parts: seq<string>): string
    requires parts != []
  {
    if |parts| == 1 then parts[0] else parts[0] + "/" + Join(parts[1..])
  }

  lemma {:induction false} SplitThenJoin(s: string)
    ensures Join(Split(s)) == s
  {
    if s != "" {
      SplitThenJoin(s[1..]);
      var rest := Split(s[1..]);
      if s[0] == '/' {
        assert ([""] + rest)[1..] == rest;
      } else if |rest| > 1 {
        assert ([[s[0]] + rest[0]] + rest[1..])[1..] == rest[1..];
        assert [s[0]] + rest[0] + "/" + Join(rest[1..]) == [s[0]] + (rest[0] + "/" + Join(rest[1..]));
      }
    }
  }

  lemma {:induction false} PartThenRest(part: string, rest: string)
    requires '/' !in part
    ensures Split(part + "/" + rest) == [part] + Split(rest)
    decreases part
  {
    var s := part + "/" + rest;
    if part == "" {
      assert s[1..] == rest;
    } else {
      PartThenRest(part[1..], rest);
      assert s[1..] == part[1..] + "/" + rest;
      assert [part[0]] + part[1..] == part;
    }
  }

  lemma {:induction false} OnePart(part: string)
    requires '/' !in part
    ensures Split(part) == [part]
  {
    if part != "" {
      OnePart(part[1..]);
      assert [part[0]] + part[1..] == part;
    }
  }

  lemma {:induction false} JoinThenSplit(parts: seq<string>)
    requires parts != [] && forall p :: p in parts ==> '/' !in p
    ensures Split(Join(parts)) == parts
  {
    if |parts| == 1 {
      OnePart(parts[0]);
    } else {
      JoinThenSplit(parts[1..]);
      PartThenRest(parts[0], Join(parts[1..]));
    }
  }

  // ---- topics ----

  function Parse(s: string): Result<Topic, TopicError> {
    var parts := Split(s);
    if |parts| != 5 then Err(BadTopic)
    else if parts[3] != APP_NAME && parts[0] != APP_NAME then Err(BadTarget)
    else
      var operator, infoType := OperatorOf(parts[1]), InfoTypeOf(parts[2]);
      if operator.None? then Err(BadOperator)
      else if infoType.None? then Err(BadInfoType)
      else Ok(Topic(parts[0], operator.value, infoType.value, parts[3], parts[4]))
  }

  function Parts(t: Topic): seq<string> {
    [t.app, OperatorName(t.operator), InfoTypeName(t.infoType), t.target, t.object_]
  }

  function Print(t: Topic): string {
    Join(Parts(t))
  }

  /** The way back: source and target change places, and a request becomes a response. */
  function Transfer(t: Topic): string {
    Print(Topic(t.target, t.operator, if t.infoType == Request then Response else t.infoType, t.app, t.object_))
  }

  predicate SlashFree(t: Topic) {
    '/' !in t.app && '/' !in t.target && '/' !in t.object_
  }

  lemma NoSlashInNames(t: Topic)
    ensures '/' !in OperatorName(t.operator) && '/' !in InfoTypeName(t.infoType)
  {
  }

  lemma PrintedParsed(t: Topic)
    requires SlashFree(t)
    ensures Parse(Print(t)) == Ok(t) <==> t.app == APP_NAME || t.target == APP_NAME
  {
    NoSlashInNames(t);
    JoinThenSplit(Parts(t));
  }

  lemma ParsedPrinted(s: string)
    requires Parse(s).Ok?
    ensures Print(Parse(s).value) == s && SlashFree(Parse(s).value)
  {
    SplitThenJoin(s);
    assert Parts(Parse(s).value) == Split(s);
  }

  /** The topic of an answer is always one the program could read; going there and back gives
      the topic, or that of the response if it was a request. */
  lemma ThereAndBack(s: string)
    requires Parse(s).Ok?
    ensures var t := Parse(s).value;
            && Parse(Transfer(t)).Ok?
            && Transfer(Parse(Transfer(t)).value) ==
                Print(if t.infoType == Request then t.(infoType := Response) else t)
            && (t.infoType != Request ==> Transfer(Parse(Transfer(t)).value) == s)
  {
    var t := Parse(s).value;
    ParsedPrinted(s);
    PrintedParsed(
      Topic(t.target, t.operator, if t.infoType == Request then Response else t.infoType, t.app, t.object_));
  }

  // ---- on the texts ----

  /** Which texts are topics, what they mean, and why others are none. */
  lemma ParsedParts(s: string)
    ensures var p, r := Split(s), Parse(s);
            && (r == Err(BadTopic) <==> |p| != 5)
            && (|p| == 5 ==>
                  var ours := p[0] == "PLCServiceGW" || p[3] == "PLCServiceGW";
                  var operator := p[1] == "set" || p[1] == "get" || p[1] == "action" || p[1] == "notify";
                  var infoType := p[2] == "request" || p[2] == "response" || p[2] == "event" || p[2] == "spont";
                  && (r == Err(BadTarget) <==> !ours)
                  && (r == Err(BadOperator) <==> ours && !operator)
                  && (r == Err(BadInfoType) <==> ours && operator && !infoType)
                  && (r.Ok? <==> ours && operator && infoType))
            && (r.Ok? ==>
                  var t := r.value;
                  && t.app == p[0] && t.target == p[3] && t.object_ == p[4]
                  && p[1] == (match t.operator
                              case Set => "set" case Get => "get" case Action => "action" case Notify => "notify")
                  && p[2] == (match t.infoType
                              case Request => "request" case Response => "response"
                              case Event => "event" case Spont => "spont"))
  {
    hide Split;
  }

  /** The topic of an answer, part by part: source and target change places, a request becomes a
      response, and the rest stays. */
  lemma TurnedParts(s: string)
    requires Parse(s).Ok?
    ensures var p, q := Split(s), Split(Transfer(Parse(s).value));
            && |p| == 5 && |q| == 5
            && q[0] == p[3] && q[3] == p[0] && q[1] == p[1] && q[4] == p[4]
            && q[2] == if p[2] == "request" then "response" else p[2]
  {
    var t := Parse(s).value;
    var back := Topic(t.target, t.operator, if t.infoType == Request then Response else t.infoType, t.app, t.object_);
    ParsedParts(s);
    NoSlashInNames(back);
    JoinThenSplit(Parts(back));
  }
}
