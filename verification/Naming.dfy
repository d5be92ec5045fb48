/** Which UE IDs a PDU names, read off its IE list alone whatever its procedure, and when the proxy's
    tables treat them. */
module Naming {
  import opened Ngap
  import opened Options

  const ALL_IDS := ReadIds(true, true)

  /** The value of the ID IE itself, the last one when it is repeated. */
  function OwnId(pdu: Pdu<Ie>, f: Field): Option<int> {
    match pdu.Payload()
    case Some(Message(_, Some(ies))) => LastHeld(ALL_IDS, f, ies)
    case _ => None
  }

  /** What a UE-NGAP-IDs IE gives: both IDs, or the AMF ID alone. */
  function InChoice(ie: Ie, f: Field): Option<int> {
    if !ie.id.UeNgapIds? then None
    else if ie.pair.Some? then Some(if f.AmfField? then ie.pair.value.0 else ie.pair.value.1)
    else if f.AmfField? && ie.ueNgapIds.Some? then ie.ueNgapIds.value
    else None
  }

  function LastInChoice(f: Field, ies: seq<Ie>): Option<int> {
    if ies == [] then None
    else
      var last := InChoice(ies[|ies| - 1], f);
      if last.Some? then last else LastInChoice(f, ies[..|ies| - 1])
  }

  function ChoiceId(pdu: Pdu<Ie>, f: Field): Option<int> {
    match pdu.Payload()
    case Some(Message(_, Some(ies))) => LastInChoice(f, ies)
    case _ => None
  }

  /** The ID that the PDU names in field `f`: in the ID IE, or else in a UE-NGAP-IDs IE. */
  function Named(pdu: Pdu<Ie>, f: Field): Option<int> {
    if OwnId(pdu, f).Some? then OwnId(pdu, f) else ChoiceId(pdu, f)
  }

  function NamedRan(pdu: Pdu<Ie>): Option<int> {
    Named(pdu, RanField)
  }

  function NamedAmf(pdu: Pdu<Ie>): Option<int> {
    Named(pdu, AmfField)
  }

  predicate ReadsField(rule: ReadRule, f: Field) {
    rule.ReadIds? && if f.RanField? then rule.ran else rule.amf
  }

  predicate WritesField(rule: WriteRule, f: Field) {
    rule.WriteIds? && if f.RanField? then rule.ran else rule.amf
  }

  /** The PDU names the ID in its own IE, and its procedure's row in both tables treats that IE. */
  predicate Covers(pdu: Pdu<Ie>, f: Field) {
    && OwnId(pdu, f).Some?
    && ReadsField(ReadRuleOf(pdu.Class(), pdu.Payload().value.procedure), f)
    && WritesField(WriteRuleOf(pdu.Class(), pdu.Payload().value.procedure), f)
  }

  // ---------- extraction against naming ----------

  lemma {:induction false} HeldAsOwn(rule: ReadRule, f: Field, ies: seq<Ie>)
    requires rule.ReadIds?
    ensures LastHeld(rule, f, ies) == if ReadsField(rule, f) then LastHeld(ALL_IDS, f, ies) else None
  {
    if ies != [] {
      HeldAsOwn(rule, f, ies[..|ies| - 1]);
    }
  }

  /** What extraction reads is what is named; a field not read counts as 0. */
  lemma ReadIsNamed(pdu: Pdu<Ie>, f: Field)
    requires !IsReleaseCommand(pdu)
    ensures Extract(pdu).UeIds?
    ensures var read := if f.RanField? then Extract(pdu).ran else Extract(pdu).amf;
            if Carries(pdu, f) then Named(pdu, f) == Some(read) else read == 0
  {
    match pdu.Payload() {
      case Some(Message(p, Some(ies))) =>
        var rule := ReadRuleOf(pdu.Class(), p);
        TablesAgree(pdu.Class(), p);
        if rule.ReadIds? { HeldAsOwn(rule, f, ies); } else { NothingHeld(f, ies); }
        assert !ExtractCrashes(rule, ies);
      case _ =>
    }
  }

  /** Extraction of a message that is no context release reads a field exactly when it is covered, and
      then reads what is named. */
  lemma ReadExactlyCovered(pdu: Pdu<Ie>, f: Field)
    requires !IsContextRelease(pdu)
    ensures Carries(pdu, f) <==> Covers(pdu, f)
    ensures Extract(pdu).UeIds?
    ensures Covers(pdu, f) ==>
              Named(pdu, f) == Some(if f.RanField? then Extract(pdu).ran else Extract(pdu).amf)
    ensures !Covers(pdu, f) ==> (if f.RanField? then Extract(pdu).ran else Extract(pdu).amf) == 0
  {
    ReadIsNamed(pdu, f);
    match pdu.Payload() {
      case Some(Message(p, Some(ies))) =>
        var rule := ReadRuleOf(pdu.Class(), p);
        TablesAgree(pdu.Class(), p);
        if rule.ReadIds? { HeldAsOwn(rule, f, ies); } else { NothingHeld(f, ies); }
      case _ =>
    }
  }

  // ---------- rewriting against naming ----------

  lemma {:induction false} WrittenOwn(rule: WriteRule, f: Field, ies: seq<Ie>, ran: int, amf: int)
    ensures LastHeld(ALL_IDS, f, WriteIes(rule, ies, ran, amf)) ==
            if LastHeld(ALL_IDS, f, ies).Some? && WritesField(rule, f) then Some(if f.RanField? then ran else amf)
            else LastHeld(ALL_IDS, f, ies)
  {
    if ies != [] {
      var front := ies[..|ies| - 1];
      WrittenOwn(rule, f, front, ran, amf);
      var out := WriteIes(rule, ies, ran, amf);
      assert out[..|out| - 1] == WriteIes(rule, front, ran, amf);
    }
  }

  lemma {:induction false} WrittenChoice(rule: WriteRule, f: Field, ies: seq<Ie>, ran: int, amf: int)
    ensures LastInChoice(f, WriteIes(rule, ies, ran, amf)) == LastInChoice(f, ies)
  {
    if ies != [] {
      var front := ies[..|ies| - 1];
      WrittenChoice(rule, f, front, ran, amf);
      var out := WriteIes(rule, ies, ran, amf);
      assert out[..|out| - 1] == WriteIes(rule, front, ran, amf);
    }
  }

  /** Exactly the covered IDs are renamed; every other name stays, for every procedure. */
  lemma RewriteNames(pdu: Pdu<Ie>, ran: int, amf: int, f: Field)
    requires !Modify(pdu, ran, amf).ModifyCrash?
    ensures var out := Rewrite(pdu, ran, amf);
            && Named(out, f) == (if Covers(pdu, f) then Some(if f.RanField? then ran else amf) else Named(pdu, f))
            && (Covers(out, f) <==> Covers(pdu, f))
  {
    match pdu.Payload() {
      case Some(Message(p, Some(ies))) =>
        var rule := WriteRuleOf(pdu.Class(), p);
        WrittenOwn(rule, f, ies, ran, amf);
        WrittenChoice(rule, f, ies, ran, amf);
        if p.UEContextRelease? {
          assert !WritesField(rule, f);
        } else {
          TablesAgree(pdu.Class(), p);
        }
      case _ =>
    }
  }
}
