/** The message filter a text logger installs: which levels reach the log
    file under a given set of logging hints. */
module LogFilter {
  import opened Hints

  datatype Level = Info | Warning | Error | Always

  /** Whether a message of `level` is written.  An empty hint set (the zero
      mask) or the log-all flag lets everything through; otherwise only the
      error and warning levels whose flag is set pass. */
  function Accepts(hints: HintSet, level: Level): (ok: bool)
    // The zero mask or the log-all flag lets every level through.
    ensures hints == {} || LogAll in hints ==> ok
    // Info and Always pass only then.
    ensures ok && level != Error && level != Warning ==> hints == {} || LogAll in hints
    // Error passes with the error flag, and otherwise only when everything does.
    ensures level == Error ==> (ok <==> hints == {} || LogAll in hints || LogError in hints)
    // Warning passes with the warning flag, and otherwise only when everything does.
    ensures level == Warning ==> (ok <==> hints == {} || LogAll in hints || LogWarning in hints)
  {
    var all := hints == {} || LogAll in hints;
    all || (LogError in hints && level == Error) || (LogWarning in hints && level == Warning)
  }

  /** Adding flags to a non-empty hint set never filters out more. */
  lemma AcceptsMonotone(h1: HintSet, h2: HintSet, level: Level)
    requires h1 != {} && h1 <= h2
    requires Accepts(h1, level)
    ensures Accepts(h2, level)
  {
  }

  /** The empty set is special: it lets every message through, while a set
      holding only a non-logging flag lets none through. */
  lemma EmptyIsNotLeast(level: Level)
    ensures Accepts({}, level)
    ensures !Accepts({Accumulate}, level)
  {
  }
}
