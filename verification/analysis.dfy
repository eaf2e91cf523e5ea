/** An analysis result of one conversation log and its per-utterance dialogues.
    A result is created unresolved; a caretaker may later resolve it with a
    label of their own; dialogues are attached one by one. */
module Analysis {
  import opened Domain

  /** One analysed utterance. The owning result is set when it is attached. */
  class Dialogue {
    const text: string
    const utteredAt: int
    const riskLabel: Risk
    var overallResult: OverallResult?

    constructor (text: string, utteredAt: int, riskLabel: Risk)
      ensures this.text == text && this.utteredAt == utteredAt && this.riskLabel == riskLabel
      ensures overallResult == null
    {
      this.text := text;
      this.utteredAt := utteredAt;
      this.riskLabel := riskLabel;
      overallResult := null;
    }
  }

  /** The resolution part of a result: whether a caretaker has handled it, and with which label. */
  datatype Resolution = Resolution(isResolved: bool, resolvedLabel: Option<Risk>)

  /** A result that nobody has handled yet. */
  const Unresolved := Resolution(false, None)

  /** The resolution after resolveWithLabel(newLabel), whatever it was before. */
  function Resolve(newLabel: Risk): (r: Resolution)
    ensures r.isResolved && r.resolvedLabel == Some(newLabel)
  {
    Resolution(true, Some(newLabel))
  }

  /** An analysis result. Identity, owner, timestamp, label and texts never change. */
  class OverallResult {
    const id: int
    const seniorId: int
    const dollId: string
    const timestamp: int
    const riskLabel: Risk
    const summary: string
    const evidence: seq<string>
    const treatmentPlan: string
    var isResolved: bool
    var resolvedLabel: Option<Risk>
    var dialogues: seq<Dialogue>

    function ResolutionState(): Resolution
      reads this
    {
      Resolution(isResolved, resolvedLabel)
    }

    /** A result carries a resolved label exactly when it is resolved. */
    ghost predicate Valid()
      reads this
    {
      isResolved <==> resolvedLabel.Some?
    }

    /** The builder: a new result is unresolved, has no resolved label and no dialogues. */
    constructor (id: int, seniorId: int, dollId: string, timestamp: int, riskLabel: Risk,
                 summary: string, evidence: seq<string>, treatmentPlan: string)
      ensures this.id == id && this.seniorId == seniorId && this.dollId == dollId
      ensures this.timestamp == timestamp && this.riskLabel == riskLabel
      ensures this.summary == summary && this.evidence == evidence && this.treatmentPlan == treatmentPlan
      ensures ResolutionState() == Unresolved && dialogues == []
      ensures Valid()
    {
      this.id := id;
      this.seniorId := seniorId;
      this.dollId := dollId;
      this.timestamp := timestamp;
      this.riskLabel := riskLabel;
      this.summary := summary;
      this.evidence := evidence;
      this.treatmentPlan := treatmentPlan;
      isResolved := false;
      resolvedLabel := None;
      dialogues := [];
    }

    /** resolveWithLabel: marks the result handled with the caretaker's label;
        the analysed label is untouched and a resolved result stays resolved. */
    method ResolveWithLabel(newLabel: Risk)
      modifies this
      ensures ResolutionState() == Resolve(newLabel)
      ensures old(isResolved) ==> isResolved
      ensures dialogues == old(dialogues)
      ensures Valid()
    {
      isResolved := true;
      resolvedLabel := Some(newLabel);
    }

    /** addDialogue: appends at the end and points the dialogue back at this result. */
    method AddDialogue(d: Dialogue)
      modifies this, d
      ensures dialogues == old(dialogues) + [d]
      ensures d.overallResult == this
      ensures ResolutionState() == old(ResolutionState())
      ensures old(Valid()) ==> Valid()
    {
      dialogues := dialogues + [d];
      d.overallResult := this;
    }
  }
}
