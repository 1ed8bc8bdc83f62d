/**
 `domain_context`: three context variables set on entry and reset through a stack of tokens on exit, and the logging
 filter that copies them onto records.
 */
module DomainContext {
  import opened Wrappers

  datatype Var = PartnerId | AppNumber | QueryId

  datatype Value = Number(n: int) | Text(s: string)

  /** Identifiers by name; a missing one is `None`. */
  type Ids = map<Var, Value>

  /**
   A log record: its request id, None where it has no such attribute, and the identifiers it carries of its own; an
   attribute for an identifier may be present and hold `None`.
   */
  datatype Record = Record(requestId: Option<string>, ids: map<Var, Option<Value>>)

  /** What a thread does, as far as the identifiers can tell. */
  datatype Program =
    | Skip
    | Log(record: Record)
    | Raise
    | Then(first: Program, second: Program)
    | With(ids: Ids, body: Program)
    | Try(body: Program, handler: Program)

  // ---------------------------------------------------------------- the specification

  /** The identifiers in force: those of the innermost enclosing block that supplies one, else those at the entry. */
  function Innermost(entry: Ids, blocks: seq<Ids>, v: Var): Option<Value> {
    if blocks == [] then
      if v in entry then Some(entry[v]) else None
    else if v in blocks[|blocks| - 1] then Some(blocks[|blocks| - 1][v])
    else Innermost(entry, blocks[..|blocks| - 1], v)
  }

  lemma {:induction false} InnermostIsLastSupplied(entry: Ids, blocks: seq<Ids>, v: Var, i: nat)
    requires i < |blocks| && v in blocks[i]
    requires forall j :: i < j < |blocks| ==> v !in blocks[j]
    ensures Innermost(entry, blocks, v) == Some(blocks[i][v])
  {
    if i < |blocks| - 1 {
      InnermostIsLastSupplied(entry, blocks[..|blocks| - 1], v, i);
    }
  }

  lemma {:induction false} InnermostFromEntry(entry: Ids, blocks: seq<Ids>, v: Var)
    requires forall j :: 0 <= j < |blocks| ==> v !in blocks[j]
    ensures Innermost(entry, blocks, v) == if v in entry then Some(entry[v]) else None
  {
    if blocks != [] {
      InnermostFromEntry(entry, blocks[..|blocks| - 1], v);
    }
  }

  /** The context's request id wins over the record's own; an empty one counts as none. */
  function RequestIdOf(request: Option<string>, record: Record): Option<string> {
    if request.Some? && request.value != "" then request else record.requestId
  }

  /** The record with its request id, and with each identifier in force that it does not carry already. */
  ghost predicate Stamped(record: Record, request: Option<string>, entry: Ids, blocks: seq<Ids>, out: Record) {
    && out.requestId == RequestIdOf(request, record)
    && forall v: Var ::
         && (v in record.ids ==> v in out.ids && out.ids[v] == record.ids[v])
         && (v !in record.ids ==>
               (v in out.ids <==> Innermost(entry, blocks, v).Some?)
               && (v in out.ids ==> out.ids[v] == Innermost(entry, blocks, v)))
  }

  predicate Raises(p: Program) {
    match p
    case Skip | Log(_) => false
    case Raise => true
    case Then(a, b) => Raises(a) || Raises(b)
    case With(_, body) => Raises(body)
    case Try(body, handler) => Raises(body) && Raises(handler)
  }

  /** Each record that is logged, in order, with the blocks around it. */
  function Logged(p: Program, blocks: seq<Ids>): seq<(Record, seq<Ids>)> {
    match p
    case Skip | Raise => []
    case Log(record) => [(record, blocks)]
    case Then(a, b) => Logged(a, blocks) + if Raises(a) then [] else Logged(b, blocks)
    case With(ids, body) => Logged(body, blocks + [ids])
    case Try(body, handler) => Logged(body, blocks) + if Raises(body) then Logged(handler, blocks) else []
  }

  ghost predicate AllStamped(logged: seq<(Record, seq<Ids>)>, request: Option<string>, entry: Ids, out: seq<Record>) {
    |out| == |logged| && forall k :: 0 <= k < |out| ==> Stamped(logged[k].0, request, entry, logged[k].1, out[k])
  }

  ghost predicate InForce(entry: Ids, blocks: seq<Ids>, vars: Ids) {
    forall v: Var :: Innermost(entry, blocks, v) == if v in vars then Some(vars[v]) else None
  }

  // ---------------------------------------------------------------- the implementation

  datatype Token = Token(v: Var, was: Option<Value>)

  function Current(vars: Ids, v: Var): Option<Value> {
    if v in vars then Some(vars[v]) else None
  }

  function Reset(vars: Ids, t: Token): Ids {
    if t.was.Some? then vars[t.v := t.was.value] else vars - {t.v}
  }

  /** The variables after resetting the tokens in reverse order. */
  function Unwound(vars: Ids, tokens: seq<Token>): Ids
    decreases |tokens|
  {
    if tokens == [] then vars
    else Unwound(Reset(vars, tokens[|tokens| - 1]), tokens[..|tokens| - 1])
  }

  lemma PushThenReset(vars: Ids, tokens: seq<Token>, v: Var, value: Value)
    ensures Unwound(vars[v := value], tokens + [Token(v, Current(vars, v))]) == Unwound(vars, tokens)
  {
    var t := Token(v, Current(vars, v));
    assert (tokens + [t])[..|tokens|] == tokens;
    assert Reset(vars[v := value], t) == vars;
  }

  class Context {
    var vars: Ids
    var records: seq<Record>
    const requestId: Option<string>

    constructor (requestId: Option<string>)
      ensures vars == map[] && records == [] && this.requestId == requestId
    {
      vars, records, this.requestId := map[], [], requestId;
    }

    /** Set one variable if the block supplies it. */
    method Push(ids: Ids, v: Var, tokens: seq<Token>) returns (pushed: seq<Token>)
      modifies this`vars
      ensures vars == if v in ids then old(vars)[v := ids[v]] else old(vars)
      ensures Unwound(vars, pushed) == Unwound(old(vars), tokens)
    {
      pushed := tokens;
      if v in ids {
        PushThenReset(vars, tokens, v, ids[v]);
        pushed := pushed + [Token(v, Current(vars, v))];
        vars := vars[v := ids[v]];
      }
    }

    /** `finally`: reset the tokens in reverse order. */
    method Pop(tokens: seq<Token>)
      modifies this`vars
      ensures vars == Unwound(old(vars), tokens)
    {
      var k := |tokens|;
      assert tokens[..k] == tokens;
      while k > 0
        invariant 0 <= k <= |tokens|
        invariant Unwound(vars, tokens[..k]) == Unwound(old(vars), tokens)
      {
        k := k - 1;
        assert tokens[..k + 1][..k] == tokens[..k];
        vars := Reset(vars, tokens[k]);
      }
    }

    /** `RequestContextFilter.filter`. */
    method Filter(record: Record) returns (out: Record)
      ensures out.requestId == RequestIdOf(requestId, record)
      ensures forall v: Var ::
                (v in out.ids <==> v in record.ids || v in vars)
                && (v in record.ids ==> out.ids[v] == record.ids[v])
                && (v !in record.ids && v in vars ==> out.ids[v] == Some(vars[v]))
    {
      var request := if requestId.Some? && requestId.value != "" then requestId else record.requestId;
      var ids := record.ids;
      if PartnerId in vars && PartnerId !in ids {
        ids := ids[PartnerId := Some(vars[PartnerId])];
      }
      if AppNumber in vars && AppNumber !in ids {
        ids := ids[AppNumber := Some(vars[AppNumber])];
      }
      if QueryId in vars && QueryId !in ids {
        ids := ids[QueryId := Some(vars[QueryId])];
      }
      out := Record(request, ids);
      forall v: Var
        ensures (v in ids <==> v in record.ids || v in vars)
                && (v in record.ids ==> ids[v] == record.ids[v])
                && (v !in record.ids && v in vars ==> ids[v] == Some(vars[v]))
      {
        match v
        case PartnerId =>
        case AppNumber =>
        case QueryId =>
      }
    }

    /**
     Run a program in a scope whose enclosing blocks are `blocks`. However it ends, the variables are as at the start,
     and each record logged has got the identifiers of the innermost blocks around it.
     */
    method Run(p: Program, ghost entry: Ids, ghost blocks: seq<Ids>) returns (raised: bool)
      requires InForce(entry, blocks, vars)
      modifies this
      ensures vars == old(vars)
      ensures raised == Raises(p)
      ensures old(records) <= records
      ensures AllStamped(Logged(p, blocks), requestId, entry, records[|old(records)|..])
      decreases p
    {
      hide Innermost;
      raised := false;
      match p
      case Skip =>
      case Raise =>
        raised := true;
      case Log(record) =>
        var out := Filter(record);
        assert Stamped(record, requestId, entry, blocks, out);
        records := records + [out];
      case Then(first, second) =>
        raised := Run(first, entry, blocks);
        ghost var mid := records;
        if !raised {
          raised := Run(second, entry, blocks);
        }
        JoinStamped(old(records), mid, records, Logged(first, blocks), if Raises(first) then [] else Logged(second, blocks),
                    requestId, entry);
      case With(ids, body) =>
        var tokens := Push(ids, PartnerId, []);
        tokens := Push(ids, AppNumber, tokens);
        tokens := Push(ids, QueryId, tokens);
        forall v: Var ensures Current(vars, v) == if v in ids then Some(ids[v]) else Current(old(vars), v) {
          match v
          case PartnerId =>
          case AppNumber =>
          case QueryId =>
        }
        EnterBlock(entry, blocks, old(vars), ids, vars);
        raised := Run(body, entry, blocks + [ids]);
        Pop(tokens);
      case Try(body, handler) =>
        raised := Run(body, entry, blocks);
        ghost var mid := records;
        if raised {
          raised := Run(handler, entry, blocks);
        }
        JoinStamped(old(records), mid, records, Logged(body, blocks), if Raises(body) then Logged(handler, blocks) else [],
                    requestId, entry);
    }
  }

  lemma JoinStamped(a: seq<Record>, b: seq<Record>, c: seq<Record>,
                    first: seq<(Record, seq<Ids>)>, second: seq<(Record, seq<Ids>)>,
                    request: Option<string>, entry: Ids)
    requires a <= b <= c
    requires AllStamped(first, request, entry, b[|a|..]) && AllStamped(second, request, entry, c[|b|..])
    ensures AllStamped(first + second, request, entry, c[|a|..])
  {
    hide Stamped;
    assert c[|a|..] == b[|a|..] + c[|b|..];
  }

  lemma EnterBlock(entry: Ids, blocks: seq<Ids>, before: Ids, ids: Ids, vars: Ids)
    requires InForce(entry, blocks, before)
    requires forall v: Var :: Current(vars, v) == if v in ids then Some(ids[v]) else Current(before, v)
    ensures InForce(entry, blocks + [ids], vars)
  {
    assert (blocks + [ids])[..|blocks|] == blocks;
    forall v: Var ensures Innermost(entry, blocks + [ids], v) == Current(vars, v) {
      assert Current(vars, v) == if v in ids then Some(ids[v]) else Current(before, v);
    }
  }

  function RecordsOf(logged: seq<(Record, seq<Ids>)>): seq<Record> {
    seq(|logged|, i requires 0 <= i < |logged| => logged[i].0)
  }

  /** A block changes neither how a program ends nor which records it logs, only what they are stamped with. */
  lemma {:induction false} BlocksAreTransparent(p: Program, inner: seq<Ids>, outer: seq<Ids>)
    ensures RecordsOf(Logged(p, inner)) == RecordsOf(Logged(p, outer))
    decreases p
  {
    match p
    case Then(a, b) =>
      BlocksAreTransparent(a, inner, outer);
      BlocksAreTransparent(b, inner, outer);
      RecordsOfConcat(Logged(a, inner), if Raises(a) then [] else Logged(b, inner));
      RecordsOfConcat(Logged(a, outer), if Raises(a) then [] else Logged(b, outer));
    case With(ids, body) => BlocksAreTransparent(body, inner + [ids], outer + [ids]);
    case Try(a, b) =>
      BlocksAreTransparent(a, inner, outer);
      BlocksAreTransparent(b, inner, outer);
      RecordsOfConcat(Logged(a, inner), if Raises(a) then Logged(b, inner) else []);
      RecordsOfConcat(Logged(a, outer), if Raises(a) then Logged(b, outer) else []);
    case _ =>
  }

  lemma RecordsOfConcat(a: seq<(Record, seq<Ids>)>, b: seq<(Record, seq<Ids>)>)
    ensures RecordsOf(a + b) == RecordsOf(a) + RecordsOf(b)
  {
  }

  lemma WrappingChangesNothing(p: Program, ids: Ids, blocks: seq<Ids>)
    ensures Raises(With(ids, p)) == Raises(p)
    ensures RecordsOf(Logged(With(ids, p), blocks)) == RecordsOf(Logged(p, blocks))
    ensures Logged(With(ids, Raise), blocks) == [] && Raises(With(ids, Raise))
  {
    BlocksAreTransparent(p, blocks + [ids], blocks);
  }

  /** An exception ends what follows it, up to the handler, and nothing else does. */
  lemma ExceptionsSkip(p: Program, q: Program, record: Record, blocks: seq<Ids>)
    ensures Raises(Then(Raise, p)) && Logged(Then(Raise, p), blocks) == []
    ensures Raises(Then(Log(record), p)) == Raises(p)
    ensures Logged(Then(Log(record), p), blocks) == [(record, blocks)] + Logged(p, blocks)
    ensures Raises(Try(Then(Log(record), Raise), p)) == Raises(p)
    ensures Logged(Try(Then(Log(record), Raise), p), blocks) == [(record, blocks)] + Logged(p, blocks)
    ensures !Raises(p) ==> !Raises(Try(p, q)) && Logged(Try(p, q), blocks) == Logged(p, blocks)
    ensures Raises(p) ==> Raises(Then(p, q)) && Logged(Then(p, q), blocks) == Logged(p, blocks)
  {
    assert Logged(p, blocks) + [] == Logged(p, blocks);
    assert [(record, blocks)] + [] == [(record, blocks)];
  }
}
