/** Classes/Ajax.php: an action dispatcher in front of the basket API. The
    API calls it makes are the `backend` parameter; the request input is
    given as the POST map and the decoded JSON body. */
module AjaxHandler {
  import opened Php

  /** The basket calls an action can lead to */
  datatype Dispatch =
    | GetBasket
    | AddItem(data: map<string, Value>)
    | EditItem(data: map<string, Value>)
    | DeleteItem(id: Value)
    | GetBasketPackage

  /** What renderOutput sends: the error list (400) or the output (200) */
  datatype Response = SendError(errors: seq<string>) | SendResult(output: Value)

  const NoAction := "no action defined"
  const Unresolved := "action could not be resolved"
  const NoResult := "no result created"

  /** The switch over the action, with PHP's loose comparison against each
      case label in turn; `data` is the input with 'action' already removed */
  function ResolveAction(action: Value, data: map<string, Value>): (d: Option<Dispatch>)
  {
    if LooselyEquals(action, "get") then Some(GetBasket)
    else if LooselyEquals(action, "addItem") then Some(AddItem(data))
    else if LooselyEquals(action, "editItem") then Some(EditItem(data))
    else if LooselyEquals(action, "deleteItem") then Some(DeleteItem(if "id" in data then data["id"] else Null))
    else if LooselyEquals(action, "findPackage") then Some(GetBasketPackage)
    else None
  }

  /** Exactly the five action names dispatch, each to its own call (deleteItem
      with the id entry); any other string resolves to nothing */
  lemma ResolveActionStrings(s: string, data: map<string, Value>)
    ensures ResolveAction(Str("get"), data) == Some(GetBasket)
    ensures ResolveAction(Str("addItem"), data) == Some(AddItem(data))
    ensures ResolveAction(Str("editItem"), data) == Some(EditItem(data))
    ensures "id" in data ==> ResolveAction(Str("deleteItem"), data) == Some(DeleteItem(data["id"]))
    ensures ResolveAction(Str("findPackage"), data) == Some(GetBasketPackage)
    ensures ResolveAction(Str(s), data).Some? <==> s in ["get", "addItem", "editItem", "deleteItem", "findPackage"]
  {
  }

  /** Under loose comparison `true` equals the first label, 'get', and no
      integer, array or false equals any label */
  lemma ResolveActionLoose(i: int, a: map<string, Value>, data: map<string, Value>)
    ensures ResolveAction(Bool(true), data) == Some(GetBasket)
    ensures ResolveAction(Bool(false), data) == None
    ensures ResolveAction(Int(i), data) == None
    ensures ResolveAction(Arr(a), data) == None
  {
  }

  /** What one handleActions call does: the errors it appends, the output and
      data it leaves, and the call it makes */
  datatype Handled = Handled(newErrors: seq<string>, output: Value, data: map<string, Value>, call: Option<Dispatch>)

  function Handle(data: map<string, Value>, output: Value, backend: Dispatch -> Value): Handled
  {
    if data == map[] || !IsSet(data, "action") then Handled([NoAction], output, data, None)
    else
      var rest := data - {"action"};
      match ResolveAction(data["action"], rest)
      case Some(d) =>
        var out := backend(d);
        Handled(if Truthy(out) then [] else [NoResult], out, rest, Some(d))
      case None =>
        Handled([Unresolved] + (if Truthy(output) then [] else [NoResult]), output, rest, None)
  }

  /** Without an action nothing is dispatched and only 'no action defined'
      is reported */
  lemma HandleNoAction(data: map<string, Value>, output: Value, backend: Dispatch -> Value)
    requires !IsSet(data, "action")
    ensures Handle(data, output, backend) == Handled([NoAction], output, data, None)
  {
  }

  /** With an action, it is removed from the data before any call */
  lemma HandleRemovesAction(data: map<string, Value>, output: Value, backend: Dispatch -> Value)
    requires IsSet(data, "action")
    ensures Handle(data, output, backend).data == data - {"action"}
    ensures "action" !in Handle(data, output, backend).data
  {
  }

  /** An action that resolves makes exactly that call; 'no result created'
      is reported exactly when its answer is falsy */
  lemma HandleDispatches(data: map<string, Value>, output: Value, backend: Dispatch -> Value)
    requires IsSet(data, "action") && ResolveAction(data["action"], data - {"action"}).Some?
    ensures var d := ResolveAction(data["action"], data - {"action"}).value;
      Handle(data, output, backend).call == Some(d) &&
      Handle(data, output, backend).output == backend(d) &&
      (Handle(data, output, backend).newErrors == [] <==> Truthy(backend(d))) &&
      (Handle(data, output, backend).newErrors != [] ==> Handle(data, output, backend).newErrors == [NoResult])
  {
  }

  /** An unknown action is reported, and with the initial false output also
      'no result created' */
  lemma HandleUnknown(data: map<string, Value>, backend: Dispatch -> Value)
    requires IsSet(data, "action") && ResolveAction(data["action"], data - {"action"}).None?
    ensures Handle(data, Bool(false), backend).newErrors == [Unresolved, NoResult]
    ensures Handle(data, Bool(false), backend).call == None
  {
  }

  /** renderOutput */
  function Render(errors: seq<string>, output: Value): (r: Response)
    ensures r.SendError? <==> |errors| > 0
    ensures r.SendError? ==> r.errors == errors
    ensures r.SendResult? ==> r.output == output
  {
    if |errors| > 0 then SendError(errors) else SendResult(output)
  }

  /** loadInput: the POST entries, overridden by the entries of the JSON body
      where the keys meet; a body that does not decode to an array adds
      nothing */
  function MergeInput(post: map<string, Value>, json: Value): (r: map<string, Value>)
    ensures r.Keys == post.Keys + (if json.Arr? then json.a.Keys else {})
    ensures forall k :: k in r ==> r[k] == (if json.Arr? && k in json.a then json.a[k] else post[k])
  {
    if json.Arr? then post + json.a else post
  }

  /** A whole request on a fresh handler: it answers with a result exactly
      when the action resolves and its call answers with something truthy */
  lemma RunAnswers(post: map<string, Value>, json: Value, backend: Dispatch -> Value)
    ensures var data := MergeInput(post, json);
      var h := Handle(data, Bool(false), backend);
      Render(h.newErrors, h.output).SendResult? <==>
        IsSet(data, "action") && ResolveAction(data["action"], data - {"action"}).Some? &&
        Truthy(backend(ResolveAction(data["action"], data - {"action"}).value))
  {
  }

  class Ajax {
    var errors: seq<string>
    var output: Value
    var data: map<string, Value>
    /** The basket calls made so far */
    ghost var calls: seq<Dispatch>

    /** A new handler; creating the API object cannot yield a falsy value,
        so the constructor's error branch never runs */
    constructor()
      ensures errors == [] && output == Bool(false) && data == map[] && calls == []
    {
      errors := [];
      output := Bool(false);
      data := map[];
      calls := [];
    }

    method LoadInput(post: map<string, Value>, json: Value)
      modifies this
      ensures data == MergeInput(post, json)
      ensures errors == old(errors) && output == old(output) && calls == old(calls)
    {
      data := if json.Arr? then post + json.a else post;
    }

    /** handleActions: the errors only grow */
    method HandleActions(backend: Dispatch -> Value)
      modifies this
      ensures var h := Handle(old(data), old(output), backend);
        errors == old(errors) + h.newErrors && output == h.output && data == h.data &&
        calls == old(calls) + (if h.call.Some? then [h.call.value] else [])
    {
      if data == map[] || !IsSet(data, "action") {
        errors := errors + [NoAction];
        return;
      }
      var action := data["action"];
      data := data - {"action"};
      var d := ResolveAction(action, data);
      if d.Some? {
        output := backend(d.value);
        calls := calls + [d.value];
      } else {
        errors := errors + [Unresolved];
      }
      if !Truthy(output) {
        errors := errors + [NoResult];
      }
    }

    method RenderOutput() returns (r: Response)
      ensures r == Render(errors, output)
    {
      if |errors| > 0 {
        r := SendError(errors);
      } else {
        r := SendResult(output);
      }
    }

    /** run: load the input, handle the action, render */
    method Run(post: map<string, Value>, json: Value, backend: Dispatch -> Value) returns (r: Response)
      modifies this
      ensures var h := Handle(MergeInput(post, json), old(output), backend);
        errors == old(errors) + h.newErrors && r == Render(errors, h.output)
    {
      LoadInput(post, json);
      HandleActions(backend);
      r := RenderOutput();
    }
  }
}
