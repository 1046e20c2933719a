// Signed events as they arrive from the relays.
module Events {
  import opened Wrappers

  // `kind` is None for an object that lacks the field.
  datatype Event = Event(
    id: string, kind: Option<int>, pubkey: string, tags: seq<seq<string>>, content: string, sig: string)
}
