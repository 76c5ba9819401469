/** The failures the build helper raises. Each one the source throws is a literal
    string; `NotChainable` is the engine's TypeError for a call made on the
    `undefined` that `export` returns. */
module Errors {
  import opened Wrappers

  datatype Error =
    | RegistrationFailed
    | MappingNamesMissing
    | BundleTaskFailed
    | UnknownTask(name: string)
    | NotChainable

  /** The string value thrown for `e`; none for the engine's own TypeError. */
  function Thrown(e: Error): (r: Option<string>)
    ensures r.None? <==> e.NotChainable?
  {
    if e.NotChainable? then None else Some(Message(e))
  }

  /** The literal each `throw` in the source uses. */
  function Message(e: Error): string
    requires !e.NotChainable?
  {
    match e
    case RegistrationFailed => "'bundle' registration failed. See error above."
    case MappingNamesMissing =>
      "Cannot call 'withExternalModuleMapping' without defining both 'to' and 'from' module names."
    case BundleTaskFailed => "'bundle' task failed. See error above."
    case UnknownTask(name) => "Unknown gulp task '" + name + "'."
  }

  /** Only the unknown-task text has a quote just before its final '.'. */
  lemma QuoteBeforeLast(e: Error)
    requires !e.NotChainable?
    ensures |Message(e)| >= 2 && (Message(e)[|Message(e)| - 2] == '\'' <==> e.UnknownTask?)
  {
  }

  /** Different failures throw different values, so the value thrown tells
      which failure it was, and for an unknown task which name was asked for. */
  lemma ThrownIdentifiesError(e1: Error, e2: Error)
    ensures Thrown(e1) == Thrown(e2) ==> e1 == e2
  {
    if Thrown(e1) == Thrown(e2) && !e1.NotChainable? {
      var t := Message(e1);
      assert t == Message(e2);
      QuoteBeforeLast(e1);
      QuoteBeforeLast(e2);
      if e1.UnknownTask? {
        assert t[19..|t| - 2] == e1.name;
        assert t[19..|t| - 2] == e2.name;
      } else {
        assert |Message(e1)| != |Message(e2)| || e1 == e2;
      }
    }
  }
}
