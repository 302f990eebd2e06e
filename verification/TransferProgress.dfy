/** The transfer counters and the progress callback that both bulk directions share. */
module TransferProgress {

  /** `reported` lists the values the callback has seen in this phase. */
  datatype Progress = Progress(active: bool, complete: nat, total: nat, callback: bool, reported: seq<nat>)

  /** After a block: the last update is clamped to the total and switches the callback off. */
  function Report(p: Progress): Progress {
    if !p.active then p
    else
      var q := if p.complete >= p.total then p.(complete := p.total, active := false) else p;
      if p.callback then q.(reported := p.reported + [q.complete]) else q
  }

  /**
   The values seen so far do not decrease and stay within the total, the total can only be the
   last of them, and once it was seen the callback is off.
   */
  ghost predicate Orderly(p: Progress) {
    && (forall i, j :: 0 <= i < j < |p.reported| ==> p.reported[i] <= p.reported[j])
    && (forall i :: 0 <= i < |p.reported| ==> p.reported[i] <= p.total)
    && (forall i :: 0 <= i < |p.reported| - 1 ==> p.reported[i] < p.total)
    && (p.reported != [] ==> p.reported[|p.reported| - 1] <= p.complete)
    && (p.active && p.reported != [] ==> p.reported[|p.reported| - 1] < p.total)
  }

  /** Bytes that were moved: the read side counts them only while the callback is on. */
  datatype Step = Read(n: nat) | Write(n: nat)

  function Advance(p: Progress, s: Step): Progress {
    match s
    case Read(n) => if p.active then p.(complete := p.complete + n) else p
    case Write(n) => p.(complete := p.complete + n)
  }

  lemma AdvanceOrderly(p: Progress, s: Step)
    requires Orderly(p)
    ensures Orderly(Advance(p, s)) && Advance(p, s).total == p.total
  {
  }

  lemma ReportOrderly(p: Progress)
    requires Orderly(p)
    ensures Orderly(Report(p)) && Report(p).total == p.total
    ensures p.reported <= Report(p).reported
    ensures !p.active ==> Report(p) == p
  {
  }

  /** What each block of a transfer keeps, in either direction. */
  ghost predicate Kept(inv: Progress -> bool) {
    forall p: Progress, s: Step :: inv(p) ==> inv(Advance(p, s)) && inv(Report(Advance(p, s)))
  }

  /**
   The callback discipline, from counters `p` to later counters `q` of the same phase: nothing that
   was reported is taken back, the reports stay in order and within the total, and after the total
   there is silence.
   */
  ghost predicate Disciplined(p: Progress, q: Progress) {
    && Orderly(q) && p.reported <= q.reported && q.total == p.total
    && (p.total in p.reported ==> q.reported == p.reported)
  }

  ghost function Discipline(p: Progress): Progress -> bool {
    q => Disciplined(p, q)
  }

  lemma TotalMeansOff(p: Progress)
    requires Orderly(p) && p.total in p.reported
    ensures !p.active
  {
    var i :| 0 <= i < |p.reported| && p.reported[i] == p.total;
    assert i == |p.reported| - 1;
  }

  lemma DisciplineKept(p: Progress)
    ensures Kept(Discipline(p))
  {
    hide Orderly;
    forall q: Progress, s: Step | Discipline(p)(q)
      ensures Discipline(p)(Advance(q, s)) && Discipline(p)(Report(Advance(q, s)))
    {
      if p.total in p.reported {
        TotalMeansOff(q);
      }
      AdvanceOrderly(q, s);
      ReportOrderly(Advance(q, s));
    }
  }

  lemma DisciplinedOn(p: Progress, q: Progress, r: Progress)
    requires Disciplined(p, q) && Disciplined(q, r)
    ensures Disciplined(p, r)
  {
  }
}
