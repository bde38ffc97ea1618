/** The new-opportunity form (src/components/modals/OpportunityModal.tsx): the values its
    fields show for a partly filled opportunity, and how the text typed into them is read
    back, in particular the comma-separated list of decision makers. */
module OpportunityModal {

  import opened Wrappers
  import opened Seqs
  import opened Text

  /** The form's `Partial<SalesOpportunity>`, restricted to the fields it converts.
      `None` is an absent field; for `customerId` it is also the NaN `parseInt` yields. */
  datatype OpportunityDraft = OpportunityDraft(
    customerId: Option<int>,
    stage: Option<string>,
    probability: Option<int>,
    value: Option<int>,
    decisionMakers: Option<seq<string>>)

  /** The modal renders nothing while closed. */
  datatype ModalView = Closed | Open(draft: OpportunityDraft)

  function Modal(isOpen: bool, draft: OpportunityDraft): (v: ModalView)
    ensures v.Closed? <==> !isOpen
    ensures v.Open? ==> v.draft == draft
  {
    if isOpen then Open(draft) else Closed
  }

  // ---------------------------------------------------------------------------
  // Values shown: `field || default`

  /** The stage selected when the draft names none. */
  const FirstStage: string := "初回商談"

  /** The probability shown when the draft has none. */
  const DefaultProbability: int := 30

  /** `opportunity.customerId || 0`: 0 selects the "顧客を選択" placeholder. */
  function CustomerIdShown(d: OpportunityDraft): (id: int)
    ensures id == 0 <==> d.customerId.None? || d.customerId.value == 0
    ensures id != 0 ==> d.customerId == Some(id)
  {
    match d.customerId
    case None => 0
    case Some(v) => v
  }

  /** `opportunity.stage || '初回商談'`: the empty stage counts as absent. */
  function StageShown(d: OpportunityDraft): (stage: string)
    ensures stage != ""
    ensures d.stage.Some? && d.stage.value != "" ==> stage == d.stage.value
    ensures stage != FirstStage ==> d.stage == Some(stage)
  {
    if d.stage.Some? && d.stage.value != "" then d.stage.value else FirstStage
  }

  /** `opportunity.probability || 30`: a stored 0 is shown as 30 too. */
  function ProbabilityShown(d: OpportunityDraft): (p: int)
    ensures p != 0
    ensures p != DefaultProbability ==> d.probability == Some(p)
    ensures d.probability.None? || d.probability == Some(0) ==> p == DefaultProbability
    ensures d.probability.Some? && d.probability.value != 0 ==> p == d.probability.value
  {
    if d.probability.Some? && d.probability.value != 0 then d.probability.value else DefaultProbability
  }

  /** `opportunity.value || 0`. */
  function ValueShown(d: OpportunityDraft): (v: int)
    ensures v != 0 ==> d.value == Some(v)
    ensures d.value.Some? ==> v == d.value.value
  {
    match d.value
    case None => 0
    case Some(v) => v
  }

  // ---------------------------------------------------------------------------
  // Reading what was typed

  /** `parseInt(e.target.value)` for the customer select. */
  function CustomerIdInput(text: string): (id: Option<int>)
    ensures id.None? <==> DigitPrefix(SignFree(TrimStart(text))) == []
  {
    ParseInt(text)
  }

  /** `parseInt(e.target.value) || 0` for the probability and value inputs. */
  function NumberInput(text: string): (n: int)
    ensures n == 0 <==> ParseInt(text).None? || ParseInt(text) == Some(0)
    ensures ParseInt(text).Some? ==> n == ParseInt(text).value
  {
    ParseIntOrZero(text)
  }

  /** A number typed into the probability or value input is read back as itself; the
      customer select's option values read back as the customer's id. */
  lemma NumberInputRoundTrip(n: int)
    ensures NumberInput(IntToString(n)) == n
    ensures CustomerIdInput(IntToString(n)) == Some(n)
  {
    ParseIntRoundTrip(n);
  }

  /** Clearing the probability input, or typing something that is not a number, stores 0,
      and the field then shows 30 again. */
  lemma ClearedProbabilityShowsDefault(d: OpportunityDraft, text: string)
    requires DigitPrefix(SignFree(TrimStart(text))) == []
    ensures ProbabilityShown(d.(probability := Some(NumberInput(text)))) == DefaultProbability
  {
  }

  // ---------------------------------------------------------------------------
  // Decision makers: `join(', ')` to show, `split(',').map(trim).filter(s => s)` to read

  /** `opportunity.decisionMakers?.join(', ') || ''`. */
  function DecisionMakersText(decisionMakers: Option<seq<string>>): (text: string)
    ensures decisionMakers.None? ==> text == ""
  {
    match decisionMakers
    case None => ""
    case Some(names) => Join(names, ", ")
  }

  /** What the decision-maker input can produce: a non-empty, trimmed name without a comma. */
  predicate IsName(s: string) {
    s != "" && IsTrimmed(s) && ',' !in s
  }

  /** `parts.map(s => s.trim())`. */
  function TrimEach(parts: seq<string>): (r: seq<string>)
    ensures |r| == |parts|
    ensures forall i :: 0 <= i < |parts| ==> r[i] == Trim(parts[i])
  {
    Map(parts, Trim)
  }

  function NonEmpty(): string -> bool {
    (s: string) => s != ""
  }

  /** `text.split(',').map(s => s.trim()).filter(s => s)`. */
  function ParseDecisionMakers(text: string): (names: seq<string>)
    ensures forall i :: 0 <= i < |names| ==> IsName(names[i])
  {
    var names := Filter(TrimEach(Split(text, ',')), NonEmpty());
    ParsedNames(text, names);
    names
  }

  lemma ParsedNames(text: string, names: seq<string>)
    requires names == Filter(TrimEach(Split(text, ',')), NonEmpty())
    ensures forall i :: 0 <= i < |names| ==> IsName(names[i])
  {
    var parts := Split(text, ',');
    var trimmed := TrimEach(parts);
    SplitPartsNoSeparator(text, ',');
    TrimmedParts(parts);
    FilterMembership(trimmed, NonEmpty());
    forall i | 0 <= i < |names|
      ensures IsName(names[i])
    {
      assert names[i] in names;
      assert names[i] in trimmed && names[i] != "";
    }
  }

  /** Trimmed parts without a comma are names, once the empty ones are dropped. */
  lemma TrimmedParts(parts: seq<string>)
    requires forall i :: 0 <= i < |parts| ==> ',' !in parts[i]
    ensures forall s :: s in TrimEach(parts) && s != "" ==> IsName(s)
  {
    var trimmed := TrimEach(parts);
    forall i | 0 <= i < |parts|
      ensures ',' !in trimmed[i]
    {
      TrimKeepsOnly(parts[i]);
    }
  }

  /** A space after a comma makes no difference. */
  lemma LeadingSpace(text: string)
    ensures ParseDecisionMakers(" " + text) == ParseDecisionMakers(text)
  {
    var rest := Split(text, ',');
    assert (" " + text)[1..] == text;
    var parts := Split(" " + text, ',');
    assert parts == [" " + rest[0]] + rest[1..];
    TrimLeadingWhitespace(" ", rest[0]);
    assert TrimEach(parts) == TrimEach(rest);
  }

  /** A list of names shown in the input reads back as the same list. */
  lemma {:induction false} DecisionMakersRoundTrip(names: seq<string>)
    requires forall i :: 0 <= i < |names| ==> IsName(names[i])
    ensures ParseDecisionMakers(Join(names, ", ")) == names
  {
    if names == [] {
      assert Split("", ',') == [""];
    } else if |names| == 1 {
      SingleName(names[0]);
    } else {
      DecisionMakersRoundTrip(names[1..]);
      NameThenMore(names[0], names[1..]);
      assert [names[0]] + names[1..] == names;
    }
  }

  lemma SingleName(n: string)
    requires IsName(n)
    ensures ParseDecisionMakers(Join([n], ", ")) == [n]
  {
    SplitNoSeparator(n, ',');
    TrimTrimmed(n);
    assert TrimEach([n]) == [n];
  }

  lemma NameThenMore(n: string, more: seq<string>)
    requires IsName(n) && more != []
    requires ParseDecisionMakers(Join(more, ", ")) == more
    ensures ParseDecisionMakers(Join([n] + more, ", ")) == [n] + more
  {
    var tail := Join(more, ", ");
    JoinComma(n, more);
    var parts := Split(" " + tail, ',');
    SplitAtSeparator(n, " " + tail, ',');
    TrimTrimmed(n);
    TrimEachCons(n, parts);
    LeadingSpace(tail);
    KeepFirstName(n, TrimEach(parts));
  }

  /** Showing a list: the first name, a comma, then a space and the rest. */
  lemma JoinComma(n: string, more: seq<string>)
    requires more != []
    ensures Join([n] + more, ", ") == n + [','] + (" " + Join(more, ", "))
  {
    assert ([n] + more)[1..] == more;
  }

  lemma TrimEachCons(n: string, parts: seq<string>)
    requires Trim(n) == n
    ensures TrimEach([n] + parts) == [n] + TrimEach(parts)
  {
  }

  lemma KeepFirstName(n: string, trimmed: seq<string>)
    requires n != ""
    ensures Filter([n] + trimmed, NonEmpty()) == [n] + Filter(trimmed, NonEmpty())
  {
    FilterConcat([n], trimmed, NonEmpty());
    assert Filter([n], NonEmpty()) == [n];
  }

  /** Reading, showing and reading again gives what the first reading gave. */
  lemma DecisionMakersIdempotent(text: string)
    ensures ParseDecisionMakers(DecisionMakersText(Some(ParseDecisionMakers(text))))
            == ParseDecisionMakers(text)
  {
    DecisionMakersRoundTrip(ParseDecisionMakers(text));
  }
}
