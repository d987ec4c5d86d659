/** Phase identifiers and the selection logic both generators share: the
    `phase_names` dictionary, `data_by_phase.get(phase, [])`, and which of
    the selected phases become report sections. */
module Phases {
  import Text
  import Values

  /** A phase identifier such as `recepcao` or `fasesFinais`. */
  type PhaseId = string

  /** The records of each phase, keyed by phase identifier. */
  type PhaseData = map<PhaseId, seq<Values.Record>>

  /** The record schemas the generators know. `ComponentWork` covers
      `preparacao`, `preAssemblagem` and `assemblagem`, which share one. */
  datatype PhaseKind =
    | Reception
    | ComponentWork
    | TorqueTensioning
    | FinalPhases
    | Unknown

  /** The phase identifiers the generators recognise, with their schema. */
  const KnownPhases: map<PhaseId, PhaseKind> := map[
    "recepcao" := Reception,
    "preparacao" := ComponentWork,
    "preAssemblagem" := ComponentWork,
    "assemblagem" := ComponentWork,
    "torqueTensionamento" := TorqueTensioning,
    "fasesFinais" := FinalPhases
  ]

  /** The schema of `phase`, `Unknown` when it is not recognised. It
      classifies exactly as the `if phase == ... elif phase in [...]` chain
      of both generators does. */
  function KindOf(phase: PhaseId): (k: PhaseKind)
    ensures k == Reception <==> phase == "recepcao"
    ensures k == ComponentWork <==> phase in ["preparacao", "preAssemblagem", "assemblagem"]
    ensures k == TorqueTensioning <==> phase == "torqueTensionamento"
    ensures k == FinalPhases <==> phase == "fasesFinais"
  {
    if phase in KnownPhases then KnownPhases[phase] else Unknown
  }

  predicate IsKnown(phase: PhaseId) {
    KindOf(phase) != Unknown
  }

  /** The fixed section titles (`phase_names`, identical in both generators). */
  const PhaseNames: map<PhaseId, string> := map[
    "recepcao" := "RECEÇÃO / DESCARGA",
    "preparacao" := "PREPARAÇÃO",
    "preAssemblagem" := "PRÉ-ASSEMBLAGEM",
    "assemblagem" := "ASSEMBLAGEM",
    "torqueTensionamento" := "TORQUE & TENSIONING",
    "fasesFinais" := "FASES FINAIS"
  ]

  /** The title dictionary names exactly the phases whose schema is known. */
  lemma NamedPhasesAreKnown(phase: PhaseId)
    ensures phase in PhaseNames <==> IsKnown(phase)
  {
    assert PhaseNames.Keys == KnownPhases.Keys;
  }

  /** `phase_names.get(phase, phase.upper())`. */
  function SectionTitle(phase: PhaseId): (t: string)
    ensures IsKnown(phase) ==> t == PhaseNames[phase]
    ensures !IsKnown(phase) ==> t == Text.Upper(phase)
    ensures |phase| > 0 ==> |t| > 0
  {
    NamedPhasesAreKnown(phase);
    if phase in PhaseNames then PhaseNames[phase] else Text.Upper(phase)
  }

  /** `data_by_phase.get(phase, [])`. */
  function Lookup(data: PhaseData, phase: PhaseId): (recs: seq<Values.Record>)
    ensures phase !in data ==> recs == []
    ensures phase in data ==> recs == data[phase]
  {
    if phase in data then data[phase] else []
  }

  /** Whether the `if not phase_data: continue` guard lets `phase` through. */
  predicate HasSection(data: PhaseData, phase: PhaseId) {
    |Lookup(data, phase)| > 0
  }

  /** The selected phases that produce a section, in selection order:
      phases absent from `data`, or mapped to an empty list, are dropped. */
  function Rendered(data: PhaseData, selected: seq<PhaseId>): (r: seq<PhaseId>)
    ensures |r| <= |selected|
  {
    if |selected| == 0 then []
    else if HasSection(data, selected[0]) then [selected[0]] + Rendered(data, selected[1..])
    else Rendered(data, selected[1..])
  }

  /** A phase gets a section exactly when it is selected and has records:
      every rendered phase was selected and passes the guard, and every
      selected phase that passes the guard is rendered. */
  lemma {:induction false} RenderedExactly(data: PhaseData, selected: seq<PhaseId>, p: PhaseId)
    ensures p in Rendered(data, selected) <==> p in selected && HasSection(data, p)
  {
    if |selected| > 0 {
      RenderedExactly(data, selected[1..], p);
      assert selected == [selected[0]] + selected[1..];
    }
  }

  /** Selecting `a` then `b` renders `a`'s sections then `b`'s. */
  lemma {:induction false} RenderedAppend(data: PhaseData, a: seq<PhaseId>, b: seq<PhaseId>)
    ensures Rendered(data, a + b) == Rendered(data, a) + Rendered(data, b)
  {
    if |a| == 0 {
      assert a + b == b;
    } else {
      assert (a + b)[1..] == a[1..] + b;
      RenderedAppend(data, a[1..], b);
    }
  }

  /** The section titles of `phases`, one per phase, in order. */
  function Titles(phases: seq<PhaseId>): (ts: seq<string>)
    ensures |ts| == |phases|
  {
    if |phases| == 0 then [] else [SectionTitle(phases[0])] + Titles(phases[1..])
  }

  /** Title `k` is that of phase `k`. */
  lemma {:induction false} TitlesAt(phases: seq<PhaseId>, k: nat)
    requires k < |phases|
    ensures Titles(phases)[k] == SectionTitle(phases[k])
  {
    if k > 0 {
      TitlesAt(phases[1..], k - 1);
    }
  }
}
