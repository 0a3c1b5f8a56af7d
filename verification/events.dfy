/** The event manager the core hands control events to, seen from the core:
    it receives `emitEvent(var_type, var_name, data)` calls and may raise on any
    of them. The model records the calls it accepted as a trace. */
module Events {
  import opened Python

  /** One `emitEvent(var_type, var_name, data)` call. */
  datatype Event = Event(varType: Data, varName: Data, data: string)

  /** An event manager: which call it raises on, given the calls it already accepted. */
  datatype Sink = Sink(refuses: (seq<Event>, Event) -> bool)

  /** The calls accepted so far, and the exception that stopped the run, if any. */
  datatype Run = Run(trace: seq<Event>, raised: Option<Error>)

  function Emit(sink: Sink, trace: seq<Event>, e: Event): Run {
    if sink.refuses(trace, e) then Run(trace, Some(SinkError)) else Run(trace + [e], None)
  }
}
