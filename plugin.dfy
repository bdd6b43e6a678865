/**
 * The `chromeExtension` bundler plugin: how its hooks turn the bundler's
 * configuration into events for the build supervisor, and the stub module
 * it serves when every real entry was handed to the supervisor.
 */
module Plugin {
  import opened Wrappers
  import opened Paths
  import opened SendingFilter

  /** The reserved id of the stub entry module. */
  const StubId: string := "_stubIdForRPCE"

  /** The code of the stub module: a single `console.log` of its id. */
  const StubCode: string := "console.log('" + StubId + "')"

  /** The prefix that marks a manifest among the ids of an array input. */
  const ManifestPrefix: string := "manifest"

  /** The entry name that marks a manifest among the entries of a record input. */
  const ManifestName: string := "manifest"

  /**
   * The supervisor's vocabulary of file types and origins. The hooks
   * modelled here only ever send `Manifest` and `Html` assets of origin
   * `Input`; the other tags belong to the supervisor and its plugins.
   */
  datatype FileType = Manifest | Html | Script | Css | Image | Json | Raw

  datatype Origin = Input | Derived

  datatype Asset = Asset(id: string, origin: Origin, fileType: FileType, fileName: Option<string>)

  /** What the bundler's file watcher reports about a changed file. */
  datatype ChangeKind = Create | Update | Delete

  /**
   * The events the supervisor accepts. `Start` is sent by the `buildStart`
   * hook, which is not part of this model, so nothing here sends it.
   */
  datatype Event =
    | Root(path: string)
    | AddFile(asset: Asset)
    | Start
    | Change(id: string, change: ChangeKind)

  /** One `[name, id]` pair of a record input, in `Object.entries` order. */
  datatype Entry = Entry(name: string, id: string)

  /** The bundler's `input` option: absent, a string, an array of ids, or a record. */
  datatype BundlerInput =
    | Missing
    | Single(id: string)
    | Ids(ids: seq<string>)
    | Entries(entries: seq<Entry>)

  /** The `input` the hook returns: an array of ids or a record. */
  datatype FinalInput = IdList(ids: seq<string>) | Record(entries: seq<Entry>)

  /**
   * The options the hook receives. `plugins == None` is an absent `plugins`
   * option, which defaults to the empty list; `rest` stands for every option
   * other than `input` and `plugins`.
   */
  datatype BundlerOptions<P, R> = BundlerOptions(plugins: Option<seq<P>>, input: BundlerInput, rest: R)

  /** The options the hook returns. */
  datatype ReturnedOptions<P, R> = ReturnedOptions(input: FinalInput, plugins: seq<P>, rest: R)

  /** The events the hook sends and the input it returns, for a given `input` option. */
  datatype Partition = Partition(events: seq<Event>, finalInput: FinalInput)

  /** The entry list that is handed back when every real entry was taken over. */
  const StubInput: FinalInput := IdList([StubId])

  predicate NonEmpty(f: FinalInput) {
    match f
    case IdList(ids) => ids != []
    case Record(entries) => entries != []
  }

  /**
   * The array branch's filter callback: an HTML id is added as HTML even
   * when its basename starts with "manifest"; otherwise an id whose basename
   * starts with "manifest" is added as the manifest; anything else is kept.
   */
  function IdCallback(id: string): (r: Option<Event>)
    ensures r.Some? <==> IsHtml(id) || StartsWith(Basename(id), ManifestPrefix)
    ensures r.Some? ==>
      r.value == AddFile(Asset(id, Input, if IsHtml(id) then Html else Manifest, None))
  {
    if IsHtml(id) then Some(AddFile(Asset(id, Input, Html, None)))
    else if StartsWith(Basename(id), ManifestPrefix) then Some(AddFile(Asset(id, Input, Manifest, None)))
    else None
  }

  /**
   * The record branch's filter callback: an HTML id is added as HTML under
   * its entry name; otherwise the entry named exactly "manifest" is added as
   * the manifest, without a name; anything else is kept.
   */
  function EntryCallback(e: Entry): (r: Option<Event>)
    ensures r.Some? <==> IsHtml(e.id) || e.name == ManifestName
    ensures r.Some? ==> r.value.AddFile? && r.value.asset.id == e.id && r.value.asset.origin == Input
    ensures r.Some? ==> (r.value.asset.fileType == Html <==> IsHtml(e.id))
    ensures r.Some? ==> (r.value.asset.fileType == Html || r.value.asset.fileType == Manifest)
    ensures r.Some? ==> r.value.asset.fileName == (if IsHtml(e.id) then Some(e.name) else None)
  {
    if IsHtml(e.id) then Some(AddFile(Asset(e.id, Input, Html, Some(e.name))))
    else if e.name == ManifestName then Some(AddFile(Asset(e.id, Input, Manifest, None)))
    else None
  }

  /** What the `options` hook sends and returns for a given `input` option. */
  function PartitionInput(input: BundlerInput): (r: Partition)
    ensures NonEmpty(r.finalInput)
    ensures input.Single? ==>
      r.events == [AddFile(Asset(input.id, Input, Manifest, None))] && r.finalInput == StubInput
    ensures input.Missing? ==> r.events == [] && r.finalInput == StubInput
    ensures r.finalInput.Record? ==>
      input.Entries? && forall e | e in r.finalInput.entries :: e in input.entries && EntryCallback(e).None?
    ensures r.finalInput.IdList? && r.finalInput != StubInput ==>
      input.Ids? && forall id | id in r.finalInput.ids :: id in input.ids && IdCallback(id).None?
  {
    // a missing input defaults to the empty array
    var given := if input.Missing? then Ids([]) else input;
    if given.Single? then
      Partition([AddFile(Asset(given.id, Input, Manifest, None))], StubInput)
    else if given.Ids? then
      var kept := Kept(given.ids, IdCallback);
      Partition(Sent(given.ids, IdCallback), if kept != [] then IdList(kept) else StubInput)
    else
      var kept := Kept(given.entries, EntryCallback);
      Partition(Sent(given.entries, EntryCallback), if kept != [] then Record(kept) else StubInput)
  }

  /** The `config` hook's event: `ROOT` only when the configured root is a string. */
  function RootEvents(root: Option<string>): (r: seq<Event>)
    ensures r != [] <==> root.Some?
    ensures forall e | e in r :: e == Root(root.value)
    ensures |r| <= 1
  {
    if root.Some? then [Root(root.value)] else []
  }

  /** The `resolveId` hook: claims the stub id and nothing else. */
  function ResolveId(id: string): (r: Option<string>)
    ensures r.Some? <==> id == StubId
    ensures r.Some? ==> r.value == id
  {
    if id == StubId then Some(id) else None
  }

  /** The `load` hook: serves the stub module's code for the stub id and nothing else. */
  function Load(id: string): (r: Option<string>)
    ensures r.Some? <==> id == StubId
    ensures r.Some? ==> r.value == StubCode
  {
    if id == StubId then Some(StubCode) else None
  }

  /** The plugin instance; `sent` is every event it has sent to the supervisor, oldest first. */
  class ChromeExtension {
    var sent: seq<Event>

    constructor ()
      ensures sent == []
    {
      sent := [];
    }

    /** Sends one event to the supervisor. */
    method Send(e: Event)
      modifies this
      ensures sent == old(sent) + [e]
    {
      sent := sent + [e];
    }

    /** The `config` hook. */
    method Config(root: Option<string>)
      modifies this
      ensures sent == old(sent) + RootEvents(root)
    {
      if root.Some? {
        Send(Root(root.value));
      }
    }

    /** `xs.filter(callback)` where the callback sends the events it produces. */
    method FilterSending<T>(xs: seq<T>, callback: T -> Option<Event>) returns (result: seq<T>)
      modifies this
      ensures sent == old(sent) + Sent(xs, callback)
      ensures result == Kept(xs, callback)
    {
      result := [];
      var i := 0;
      while i < |xs|
        invariant 0 <= i <= |xs|
        invariant sent == old(sent) + Sent(xs[..i], callback)
        invariant result == Kept(xs[..i], callback)
      {
        FilterSnoc(xs[..i], xs[i], callback);
        assert xs[..i + 1] == xs[..i] + [xs[i]];
        match callback(xs[i]) {
          case Some(e) =>
            Send(e);
          case None =>
            result := result + [xs[i]];
        }
        i := i + 1;
      }
      assert xs[..|xs|] == xs;
    }

    /**
     * The `options` hook: sends an `ADD_FILE` event for every manifest and
     * HTML entry and returns the remaining input, or the stub entry when
     * nothing remains.
     */
    method Options<P, R>(options: BundlerOptions<P, R>) returns (r: ReturnedOptions<P, R>)
      modifies this
      ensures sent == old(sent) + PartitionInput(options.input).events
      ensures r.input == PartitionInput(options.input).finalInput
      ensures r.plugins == (if options.plugins.Some? then options.plugins.value else [])
      ensures r.rest == options.rest
    {
      var plugins := if options.plugins.Some? then options.plugins.value else [];
      var input := if options.input.Missing? then Ids([]) else options.input;
      var builtins: seq<P> := [];

      var finalInput := StubInput;
      if input.Single? {
        Send(AddFile(Asset(input.id, Input, Manifest, None)));
      } else if input.Ids? {
        var result := FilterSending(input.ids, IdCallback);
        if |result| > 0 {
          finalInput := IdList(result);
        }
      } else {
        var result := FilterSending(input.entries, EntryCallback);
        if |result| > 0 {
          finalInput := Record(result);
        }
      }

      r := ReturnedOptions(finalInput, plugins + builtins, options.rest);
    }

    /** The `watchChange` hook: forwards the change to the supervisor. */
    method WatchChange(id: string, change: ChangeKind)
      modifies this
      ensures sent == old(sent) + [Change(id, change)]
    {
      Send(Change(id, change));
    }
  }
}
