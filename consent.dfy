/** The settings row for e-mail delivery of reports: the stored consent, the checkbox
    value, the load and save progress flags and the error line. */
module EmailConsent {
  import opened Text
  import opened JsValues

  /** The error line after a failed load. */
  const LoadError: string := "현재 동의 상태를 불러오지 못했습니다."
  /** The fallback error line after a failed save. */
  const SaveError: string := "저장 실패"

  /** How `GET /api/user/email-consent` ends: the parsed body of an OK response, or a
      failure (no response, a status that is not OK, a body that does not parse). */
  datatype LoadResult = Loaded(body: Js) | LoadFailed

  /** How `PUT /api/user/email-consent` ends. `Rejected` is a status that is not OK, with
      its body when that parses; `Thrown` is any other exception, with its message. */
  datatype SaveResult = Saved(body: Js) | Rejected(status: nat, reply: Option<Js>) | Thrown(message: string)

  /** `!!j?.email_consent`. */
  function Consent(j: Js): bool {
    Truthy(OptProp(j, "email_consent"))
  }

  /** The message of the error `onConfirm` throws for a status that is not OK: the body's
      `error` when truthy, `저장 실패 (HTTP <status>)` otherwise. */
  function RejectMessage(status: nat, body: Option<Js>): string {
    var e := if body.Some? then OptProp(body.value, "error") else Undefined;
    if Truthy(e) then ToStr(e) else SaveError + " (HTTP " + NatToString(status) + ")"
  }

  /** `setErr(e.message || '저장 실패')`: the error line a failed save shows, never empty.
      A rejection shows the server's `error` text when it is truthy and prints non-empty,
      and `저장 실패 (HTTP <status>)` when there is none; a thrown message is shown as it
      is; an empty message falls back to `저장 실패`. */
  function SaveErrorText(r: SaveResult): (msg: string)
    requires !r.Saved?
    ensures msg != ""
    ensures r.Thrown? && r.message != "" ==> msg == r.message
    ensures r.Thrown? && r.message == "" ==> msg == SaveError
    ensures r.Rejected? && (r.reply.None? || !Truthy(OptProp(r.reply.value, "error"))) ==>
              msg == SaveError + " (HTTP " + NatToString(r.status) + ")"
    ensures r.Rejected? && (r.reply.None? || !Truthy(OptProp(r.reply.value, "error"))) ==>
              StartsWith(msg, SaveError)
    ensures r.Rejected? && r.reply.Some? && Truthy(OptProp(r.reply.value, "error")) ==>
              msg == (if ToStr(OptProp(r.reply.value, "error")) != ""
                      then ToStr(OptProp(r.reply.value, "error")) else SaveError)
  {
    var m := if r.Rejected? then RejectMessage(r.status, r.reply) else r.message;
    RejectPrefix(if r.Rejected? then r.status else 0, if r.Rejected? then r.reply else None);
    if m != "" then m else SaveError
  }

  /** Without a truthy server `error`, the rejection's message is `저장 실패 (HTTP <status>)`:
      it starts with the fallback line and names the status. */
  lemma RejectPrefix(status: nat, body: Option<Js>)
    ensures var e := if body.Some? then OptProp(body.value, "error") else Undefined;
            !Truthy(e) ==> RejectMessage(status, body) == SaveError + " (HTTP " + NatToString(status) + ")"
                           && StartsWith(RejectMessage(status, body), SaveError)
  {
    var e := if body.Some? then OptProp(body.value, "error") else Undefined;
    if !Truthy(e) {
      var m := RejectMessage(status, body);
      assert m == SaveError + (" (HTTP " + NatToString(status) + ")");
      assert m[..|SaveError|] == SaveError;
    }
  }

  /** The message of a rejection without a server `error` tells the status apart: two such
      messages are equal only for equal statuses. */
  lemma RejectNamesStatus(s1: nat, s2: nat)
    requires RejectMessage(s1, None) == RejectMessage(s2, None)
    ensures s1 == s2
  {
    var pre := SaveError + " (HTTP ";
    var t1, t2 := NatToString(s1), NatToString(s2);
    assert RejectMessage(s1, None) == pre + (t1 + ")");
    assert RejectMessage(s2, None) == pre + (t2 + ")");
    assert t1 + ")" == RejectMessage(s1, None)[|pre|..];
    assert t2 + ")" == RejectMessage(s2, None)[|pre|..];
    assert |t1| == |t2|;
    assert t1 == (t1 + ")")[..|t1|];
    assert t2 == (t2 + ")")[..|t2|];
    NatToStringInjective(s1, s2);
  }

  class ConsentRow {
    var loading: bool
    var saving: bool
    var serverValue: bool
    var uiValue: bool
    var err: string

    /** `uiValue !== serverValue`. */
    predicate Dirty()
      reads this
    {
      uiValue != serverValue
    }

    /** The confirm button: `disabled={loading || saving || !dirty}`. */
    predicate CanConfirm()
      reads this
    {
      !loading && !saving && Dirty()
    }

    /** The checkbox: `disabled={loading || saving}`. */
    predicate CanEdit()
      reads this
    {
      !loading && !saving
    }

    /** The first render: loading, nothing saved, both values off, no error. */
    constructor ()
      ensures loading && !saving && !serverValue && !uiValue && err == ""
      ensures !Dirty() && !CanConfirm() && !CanEdit()
    {
      loading := true;
      saving := false;
      serverValue := false;
      uiValue := false;
      err := "";
    }

    /** The load effect. `alive` is false when the row was unmounted before the reply,
        in which case only the flags set before the request change. */
    method Load(r: LoadResult, alive: bool)
      modifies this
      ensures saving == old(saving)
      ensures alive ==> !loading
      ensures !alive ==> loading && err == "" && serverValue == old(serverValue) && uiValue == old(uiValue)
      ensures alive && r.Loaded? ==> serverValue == uiValue == Consent(r.body) && err == "" && !Dirty()
      ensures alive && r.LoadFailed? ==> err == LoadError && serverValue == old(serverValue) && uiValue == old(uiValue)
    {
      loading := true;
      err := "";
      if alive {
        match r
        case Loaded(j) =>
          var v := Consent(j);
          serverValue := v;
          uiValue := v;
        case LoadFailed =>
          err := LoadError;
      }
      if alive {
        loading := false;
      }
    }

    /** The checkbox's `onChange`. */
    method SetChecked(checked: bool)
      modifies this`uiValue
      ensures uiValue == checked
      ensures Dirty() <==> checked != serverValue
    {
      uiValue := checked;
    }

    /** `onConfirm`: on success both values take the consent the server sends back; on
        failure the stored value and the checkbox stay and the error line is set. Either
        way `saving` is cleared. */
    method Confirm(r: SaveResult)
      modifies this
      ensures !saving && loading == old(loading)
      ensures r.Saved? ==> serverValue == uiValue == Consent(r.body) && err == "" && !Dirty()
      ensures !r.Saved? ==> serverValue == old(serverValue) && uiValue == old(uiValue)
      ensures !r.Saved? ==> err == SaveErrorText(r) && err != ""
    {
      saving := true;
      err := "";
      if r.Saved? {
        var v := Consent(r.body);
        serverValue := v;
        uiValue := v;
      } else {
        err := SaveErrorText(r);
      }
      saving := false;
    }
  }
}
