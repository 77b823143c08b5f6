/**
 * The form post of the direct-request scraper (bse_scraper_2): harvest the
 * <input> fields of the price-history page, insist on the ASP.NET state
 * tokens, keep the selected settlement, and overlay the fields that ask for
 * the monthly report of one scrip from a given month.
 *
 * BeautifulSoup is a collaborator: the page reaches this module as the
 * <input> tags in document order and the options of the settlement <select>.
 */
module FormPost {
  import opened Wrappers
  import opened Text
  import opened Frames

  /** An <input> tag: its name and value attributes, when present. */
  datatype InputTag = InputTag(name: Option<string>, value: Option<string>)

  /** An <option> of a <select>: whether it carries `selected`, and its value attribute. */
  datatype OptionTag = OptionTag(selected: bool, value: Option<string>)

  /** The placeholder that prefixes the names of the page's server controls. */
  const Placeholder := "ctl00$ContentPlaceHolder1$"

  /** A form field name, split at the placeholder prefix: Control(s) is the
      name Placeholder + s, Plain(n) any name without that prefix. */
  datatype Key = Control(suffix: string) | Plain(name: string)

  function NameOf(k: Key): string {
    match k
    case Control(s) => Placeholder + s
    case Plain(n) => n
  }

  predicate WellFormed(k: Key) {
    k.Plain? ==> !StartsWith(k.name, Placeholder)
  }

  /** How a harvested name is keyed. */
  function KeyOf(name: string): (k: Key)
    ensures WellFormed(k) && NameOf(k) == name
  {
    if StartsWith(name, Placeholder) then
      assert name == Placeholder + name[|Placeholder|..];
      Control(name[|Placeholder|..])
    else Plain(name)
  }

  /** Keying is faithful: distinct names get distinct keys and back. */
  lemma KeyOfNameOf(k: Key)
    requires WellFormed(k)
    ensures KeyOf(NameOf(k)) == k
  {
    if k.Control? {
      assert (Placeholder + k.suffix)[..|Placeholder|] == Placeholder;
      assert (Placeholder + k.suffix)[|Placeholder|..] == k.suffix;
    }
  }

  type Payload = map<Key, string>

  // ---------------------------------------------------------------------
  // Harvesting the inputs (lines 47-56)

  /** The tag has a name attribute, and that name is keyed as k. */
  predicate Carries(tag: InputTag, k: Key) {
    tag.name.Some? && KeyOf(tag.name.value) == k
  }

  /** tag.get("value", "") */
  function ValueOf(tag: InputTag): string {
    match tag.value
    case Some(v) => v
    case None => ""
  }

  /** The payload after the loop has seen `tags`: named inputs only, a later
      name overwriting an earlier one. */
  function Inputs(tags: seq<InputTag>): (p: Payload)
    ensures |p| <= |tags|
  {
    if |tags| == 0 then map[]
    else
      var last := tags[|tags| - 1];
      var p := Inputs(tags[..|tags| - 1]);
      match last.name
      case None => p
      case Some(n) => p[KeyOf(n) := ValueOf(last)]
  }

  /** The harvested names are exactly the names of the named inputs. */
  lemma {:induction false} InputsKeys(tags: seq<InputTag>, k: Key)
    ensures k in Inputs(tags) <==> exists i :: 0 <= i < |tags| && Carries(tags[i], k)
  {
    if |tags| > 0 {
      var init := tags[..|tags| - 1];
      InputsKeys(init, k);
      assert forall i :: 0 <= i < |init| ==> init[i] == tags[i];
      if k in Inputs(tags) && !Carries(tags[|tags| - 1], k) {
        var i :| 0 <= i < |init| && Carries(init[i], k);
        assert Carries(tags[i], k);
      }
    }
  }

  method CollectInputs(tags: seq<InputTag>) returns (payload: Payload)
    ensures payload == Inputs(tags)
  {
    payload := map[];
    for i := 0 to |tags|
      invariant payload == Inputs(tags[..i])
    {
      assert tags[..i + 1][..i] == tags[..i];
      var tag := tags[i];
      if tag.name.None? {
        continue;
      }
      payload := payload[KeyOf(tag.name.value) := ValueOf(tag)];
    }
    assert tags[..|tags|] == tags;
  }

  /** Every harvested name maps to the value of the last input carrying it
      ("" when that input has no value attribute). */
  lemma {:induction false} InputsLastWins(tags: seq<InputTag>, k: Key)
    requires k in Inputs(tags)
    ensures exists i ::
      && 0 <= i < |tags| && Carries(tags[i], k)
      && Inputs(tags)[k] == ValueOf(tags[i])
      && forall j :: i < j < |tags| ==> !Carries(tags[j], k)
  {
    var last := tags[|tags| - 1];
    var init := tags[..|tags| - 1];
    assert |tags| > 0;
    if Carries(last, k) {
      assert Inputs(tags)[k] == ValueOf(tags[|tags| - 1]);
    } else {
      assert Inputs(tags)[k] == Inputs(init)[k];
      InputsLastWins(init, k);
      var i :| 0 <= i < |init| && Carries(init[i], k)
        && Inputs(init)[k] == ValueOf(init[i])
        && forall j :: i < j < |init| ==> !Carries(init[j], k);
      assert tags[i] == init[i];
      assert forall j :: i < j < |tags| - 1 ==> tags[j] == init[j];
    }
  }

  // ---------------------------------------------------------------------
  // The settlement selection (lines 25-33, 101-103)

  /** The value of the first selected option of the settlement <select>; none
      when there is no such select or no option is selected, and KeyError when
      the selected option has no value attribute. */
  function SettlementValue(select: Option<seq<OptionTag>>): (r: Result<Option<string>>)
    ensures select.None? ==> r == Success(None)
    ensures select.Some? && (forall o <- select.value :: !o.selected) ==> r == Success(None)
    ensures r.Success? && r.value.Some? ==>
      select.Some? && exists o <- select.value :: o.selected && o.value == r.value
    ensures r.Failure? ==> r.error == KeyMissing("value")
  {
    match select
    case None => Success(None)
    case Some(options) =>
      match FirstIndex(options, Selected)
      case None => Success(None)
      case Some(i) =>
        match options[i].value
        case None => Failure(KeyMissing("value"))
        case Some(v) => Success(Some(v))
  }

  predicate Selected(o: OptionTag) {
    o.selected
  }

  /** The first selected option decides, whatever the options after it are:
      its value, or KeyError when it has no value attribute. */
  lemma SettlementFirstSelected(options: seq<OptionTag>, i: nat)
    requires i < |options| && options[i].selected
    requires forall j :: 0 <= j < i ==> !options[j].selected
    ensures options[i].value.Some? ==> SettlementValue(Some(options)) == Success(options[i].value)
    ensures options[i].value.None? ==> SettlementValue(Some(options)) == Failure(KeyMissing("value"))
  {
    FirstIndexAt(options, i, Selected);
  }

  // ---------------------------------------------------------------------
  // The tokens and the overlay (lines 83-128, 184-190)

  const SettlementKey := Control("ddlsetllementcal")
  const CompanyKey := Control("hidCompanyVal")
  const EventTarget := Plain("__EVENTTARGET")
  const EventArgument := Plain("__EVENTARGUMENT")

  /** The ASP.NET state tokens, in the order they are checked. */
  const Tokens: seq<string> := ["__VIEWSTATE", "__EVENTVALIDATION", "__VIEWSTATEGENERATOR"]

  /** The search fields that mirror hidCompanyVal (lines 184-190). */
  const Mirrors: seq<Key> := [
    Control("smartSearch"), Control("Hidden4"), Control("smartSearch_TO"), Control("Hidden2"),
    Control("smartSearch_mf"), Control("Hidden3"), Control("smartSearch_Debt")]

  /** payload.get(k) is truthy. */
  predicate HasToken(p: Payload, k: string) {
    Plain(k) in p && p[Plain(k)] != ""
  }

  /** The first token that is absent or empty. */
  function MissingTokenOf(p: Payload): (r: Option<string>)
    ensures r.None? <==> forall k <- Tokens :: HasToken(p, k)
    ensures r.Some? ==> exists j ::
      && 0 <= j < |Tokens| && Tokens[j] == r.value && !HasToken(p, Tokens[j])
      && forall i :: 0 <= i < j ==> HasToken(p, Tokens[i])
  {
    if !HasToken(p, Tokens[0]) then Some(Tokens[0])
    else if !HasToken(p, Tokens[1]) then Some(Tokens[1])
    else if !HasToken(p, Tokens[2]) then Some(Tokens[2])
    else None
  }

  /** The update u does not touch the settlement, the company or the mirrors. */
  predicate LeavesReserved(u: Payload) {
    && SettlementKey !in u && CompanyKey !in u
    && forall j :: 0 <= j < |Mirrors| ==> Mirrors[j] !in u
  }

  /** The fields payload.update(...) sets (lines 107-128); `code` is the text
      str(script_code) gives, posted as it is. */
  function Update(code: string, month: int, year: int, toDate: string): (u: Payload)
    ensures LeavesReserved(u)
  {
    var mm := Pad2(month);
    var yyyy := IntToString(year);
    map[
      Control("hdnCode") := code,
      Control("hiddenScripCode") := code,
      Control("DMY") := "rdbMonthly",
      Control("hidDMY") := "M",
      Control("cmbMonthly") := mm,
      Control("cmbMYear") := yyyy,
      Control("hidFromDate") := "01/" + mm + "/" + yyyy,
      Control("hidToDate") := toDate,
      EventTarget := "",
      EventArgument := ""]
  }

  /** What the update asks for: the scrip code twice, the monthly report, the
      month as two digits and the year as str() prints it, both of which int()
      reads back, a from-date on the first of that month, today as the to-date,
      and an empty postback event. */
  lemma UpdateFields(code: string, month: int, year: int, toDate: string)
    ensures var u := Update(code, month, year, toDate);
      && Control("hdnCode") in u && u[Control("hdnCode")] == code
      && Control("hiddenScripCode") in u && u[Control("hiddenScripCode")] == code
      && Control("DMY") in u && u[Control("DMY")] == "rdbMonthly"
      && Control("hidDMY") in u && u[Control("hidDMY")] == "M"
      && Control("cmbMonthly") in u && Control("cmbMYear") in u && Control("hidFromDate") in u
      && (0 <= month < 100 ==>
            |u[Control("cmbMonthly")]| == 2 && IsDigits(u[Control("cmbMonthly")])
            && ParseInt(u[Control("cmbMonthly")]) == Some(month))
      && u[Control("cmbMYear")] == IntToString(year) && ParseInt(u[Control("cmbMYear")]) == Some(year)
      && u[Control("hidFromDate")] == "01/" + u[Control("cmbMonthly")] + "/" + u[Control("cmbMYear")]
      && Control("hidToDate") in u && u[Control("hidToDate")] == toDate
      && EventTarget in u && EventArgument in u && u[EventTarget] == "" && u[EventArgument] == ""
  {
    ParseIntRoundTrip(year);
    if 0 <= month < 100 {
      Pad2RoundTrip(month);
    }
  }

  /** Every field the overlay with update u may write. */
  predicate Overlaid(k: Key, u: Payload) {
    k in u || k in Mirrors || k == SettlementKey
  }

  /** The payload once the settlement and the update u are applied (lines 101-128). */
  function BeforeMirrors(inputs: Payload, settlement: Option<string>, u: Payload): (p: Payload)
    ensures forall k <- u :: k in p && p[k] == u[k]
    ensures settlement.Some? && SettlementKey !in u ==> SettlementKey in p && p[SettlementKey] == settlement.value
    ensures forall k :: k !in u && (settlement.Some? ==> k != SettlementKey) ==>
      (k in p <==> k in inputs) && (k in inputs ==> p[k] == inputs[k])
  {
    (if settlement.Some? then inputs[SettlementKey := settlement.value] else inputs) + u
  }

  /** The first n mirror fields set to `company`, everything else left alone. */
  function Mirror(p: Payload, company: string, n: nat): (r: Payload)
    requires n <= |Mirrors|
    ensures forall j :: 0 <= j < n ==> Mirrors[j] in r && r[Mirrors[j]] == company
    ensures forall k :: k !in Mirrors[..n] ==> (k in r <==> k in p) && (k in p ==> r[k] == p[k])
  {
    if n == 0 then p
    else
      assert forall k :: k in Mirrors[..n - 1] ==> k in Mirrors[..n];
      Mirror(p, company, n - 1)[Mirrors[n - 1] := company]
  }

  /** The settlement, an update u that leaves the settlement, the company
      and the mirrors alone, and the mirrors set to the company value the
      payload then holds: each field ends up as exactly one of them says. */
  function Overlay(inputs: Payload, settlement: Option<string>, u: Payload): (p: Payload)
    requires LeavesReserved(u)
    ensures var company := if CompanyKey in inputs then inputs[CompanyKey] else "";
      && (forall k <- u :: k in p && p[k] == u[k])
      && (forall m <- Mirrors :: m in p && p[m] == company)
      && (settlement.Some? ==> SettlementKey in p && p[SettlementKey] == settlement.value)
      && (forall k :: !Overlaid(k, u) ==> (k in p <==> k in inputs) && (k in inputs ==> p[k] == inputs[k]))
      && (settlement.None? ==>
            (SettlementKey in p <==> SettlementKey in inputs)
            && (SettlementKey in inputs ==> p[SettlementKey] == inputs[SettlementKey]))
  {
    var before := BeforeMirrors(inputs, settlement, u);
    var company := if CompanyKey in before then before[CompanyKey] else "";
    SettlementNotMirrored();
    Mirror(before, company, |Mirrors|)
  }

  /** The settlement field is not one of the mirrors. */
  lemma SettlementNotMirrored()
    ensures SettlementKey !in Mirrors[..|Mirrors|]
  {
    assert Mirrors[..|Mirrors|] == Mirrors;
    assert forall j :: 0 <= j < |Mirrors| ==> Mirrors[j].suffix != SettlementKey.suffix;
  }

  /** The payload posted for the monthly report, or the RuntimeError raised
      for a missing token.  `toDate` is today's date as strftime("%d/%m/%Y")
      formats it. */
  function MonthlyPayload(inputs: Payload, settlement: Option<string>, code: string, month: int, year: int, toDate: string)
    : (r: Result<Payload>)
    ensures r.Failure? <==> exists k <- Tokens :: !HasToken(inputs, k)
    ensures r.Failure? ==> r.error == MissingToken(MissingTokenOf(inputs).value)
    ensures r.Success? ==> r.value == Overlay(inputs, settlement, Update(code, month, year, toDate))
  {
    match MissingTokenOf(inputs)
    case Some(k) => Failure(MissingToken(k))
    case None => Success(Overlay(inputs, settlement, Update(code, month, year, toDate)))
  }

  /** Lines 94-99: the first token that is absent or empty, checked in order. */
  method CheckTokens(payload: Payload) returns (missing: Option<string>)
    ensures missing == MissingTokenOf(payload)
  {
    for t := 0 to |Tokens|
      invariant forall j :: 0 <= j < t ==> HasToken(payload, Tokens[j])
    {
      var k := Tokens[t];
      if !(Plain(k) in payload && payload[Plain(k)] != "") {
        return Some(k);
      }
    }
    return None;
  }

  /** Lines 101-190: keep the settlement, apply the update u, then fill the
      mirrors with the company value. */
  method ApplyOverlay(inputs: Payload, settlement: Option<string>, u: Payload) returns (payload: Payload)
    requires LeavesReserved(u)
    ensures payload == Overlay(inputs, settlement, u)
  {
    payload := inputs;
    if settlement.Some? {
      payload := payload[SettlementKey := settlement.value];
    }
    payload := payload + u;
    var company := if CompanyKey in payload then payload[CompanyKey] else "";
    payload := FillMirrors(payload, company);
  }

  /** Lines 184-190: each mirror field in turn takes the company value. */
  method FillMirrors(p: Payload, company: string) returns (payload: Payload)
    ensures payload == Mirror(p, company, |Mirrors|)
  {
    payload := p;
    for m := 0 to |Mirrors|
      invariant payload == Mirror(p, company, m)
    {
      payload := payload[Mirrors[m] := company];
    }
  }

  /** Lines 94-190: check the tokens, then build the monthly-report payload. */
  method BuildPayload(inputs: Payload, settlement: Option<string>, code: string, month: int, year: int, toDate: string)
    returns (r: Result<Payload>)
    ensures r == MonthlyPayload(inputs, settlement, code, month, year, toDate)
  {
    var missing := CheckTokens(inputs);
    if missing.Some? {
      return Failure(MissingToken(missing.value));
    }
    var payload := ApplyOverlay(inputs, settlement, Update(code, month, year, toDate));
    r := Success(payload);
  }

  /** The download postback: the same payload with the download button as event target (lines 215-216). */
  function DownloadPayload(p: Payload): (d: Payload)
    ensures EventTarget in d && d[EventTarget] == NameOf(Control("btnDownload"))
    ensures forall k :: k != EventTarget ==> (k in d <==> k in p) && (k in p ==> d[k] == p[k])
  {
    p[EventTarget := NameOf(Control("btnDownload"))]
  }
}
