/** What the `options` hook promises about the events it sends and the input it returns. */
module PluginProperties {
  import opened Wrappers
  import opened Paths
  import opened SendingFilter
  import opened Plugin

  /** The ids of the `ADD_FILE` events among `events`, in order. */
  function AddedIds(events: seq<Event>): seq<string> {
    if events == [] then []
    else (if events[0].AddFile? then [events[0].asset.id] else []) + AddedIds(events[1..])
  }

  /**
   * Array input is a partition: counted with multiplicity, every id either
   * becomes the id of exactly one `ADD_FILE` event or stays in the residual.
   */
  lemma ArrayInputPartition(ids: seq<string>)
    ensures multiset(AddedIds(Sent(ids, IdCallback))) + multiset(Kept(ids, IdCallback)) == multiset(ids)
  {
    AddFilePartition(ids, IdCallback);
  }

  /** The partition for any callback that adds each element it takes over under that element's id. */
  lemma {:induction false} AddFilePartition(ids: seq<string>, callback: string -> Option<Event>)
    requires forall x :: callback(x).Some? ==> callback(x).value.AddFile? && callback(x).value.asset.id == x
    ensures multiset(AddedIds(Sent(ids, callback))) + multiset(Kept(ids, callback)) == multiset(ids)
  {
    if ids != [] {
      var x, t := ids[0], ids[1..];
      AddFilePartition(t, callback);
      assert ids == [x] + t;
      var sent, kept := Sent(t, callback), Kept(t, callback);
      match callback(x) {
        case Some(e) =>
          assert Sent(ids, callback) == [e] + sent && Kept(ids, callback) == kept;
          assert ([e] + sent)[1..] == sent;
          assert AddedIds([e] + sent) == [x] + AddedIds(sent);
        case None =>
          assert Sent(ids, callback) == sent && Kept(ids, callback) == [x] + kept;
      }
    }
  }

  /** Every event the hook sends adds an input asset that is either HTML or the manifest. */
  lemma OptionsAddsOnlyInputs(input: BundlerInput)
    ensures forall e | e in PartitionInput(input).events ::
      e.AddFile? && e.asset.origin == Input && (e.asset.fileType == Html || e.asset.fileType == Manifest)
  {
    if input.Ids? {
      SentExactly(input.ids, IdCallback);
    } else if input.Entries? {
      SentExactly(input.entries, EntryCallback);
    }
  }

  /**
   * The returned input is exactly the residual of the array or record when
   * something is left, and the stub entry when nothing is.
   */
  lemma FinalInputIsResidual(input: BundlerInput)
    ensures input.Ids? ==>
      var kept := Kept(input.ids, IdCallback);
      PartitionInput(input).events == Sent(input.ids, IdCallback) &&
      (kept != [] ==> PartitionInput(input).finalInput == IdList(kept)) &&
      (kept == [] ==> PartitionInput(input).finalInput == StubInput)
    ensures input.Entries? ==>
      var kept := Kept(input.entries, EntryCallback);
      PartitionInput(input).events == Sent(input.entries, EntryCallback) &&
      (kept != [] ==> PartitionInput(input).finalInput == Record(kept)) &&
      (kept == [] ==> PartitionInput(input).finalInput == StubInput)
  {
  }

  /** The stub id is never taken over: it is not HTML and its basename does not start with "manifest". */
  lemma StubIdIsKept()
    ensures IdCallback(StubId) == None
    ensures forall name | name != ManifestName :: EntryCallback(Entry(name, StubId)) == None
  {
    StubIdIsPlain();
  }

  lemma StubIdIsPlain()
    ensures !IsHtml(StubId) && !StartsWith(Basename(StubId), ManifestPrefix)
  {
    BasenameOfSegment(StubId);
    assert StubId[0] == '_' && ManifestPrefix[0] == 'm';
    assert !EndsWith(StubId, HtmlSuffix) by {
      assert StubId[|StubId| - 1] == 'E' && HtmlSuffix[|HtmlSuffix| - 1] == 'l';
    }
  }

  /** The returned input as the bundler would pass it to the hook again. */
  function AsInput(f: FinalInput): BundlerInput {
    match f
    case IdList(ids) => Ids(ids)
    case Record(entries) => Entries(entries)
  }

  /** Running the hook on its own returned input sends nothing and returns that input unchanged. */
  lemma OptionsIdempotent(input: BundlerInput)
    ensures PartitionInput(AsInput(PartitionInput(input).finalInput))
         == Partition([], PartitionInput(input).finalInput)
  {
    FinalInputIsResidual(input);
    var f := PartitionInput(input).finalInput;
    if f == StubInput {
      StubInputIsFixed();
    } else if input.Ids? {
      FilterIdempotent(input.ids, IdCallback);
      FinalInputIsResidual(Ids(Kept(input.ids, IdCallback)));
    } else {
      assert input.Entries?;
      FilterIdempotent(input.entries, EntryCallback);
      FinalInputIsResidual(Entries(Kept(input.entries, EntryCallback)));
    }
  }

  lemma StubInputIsFixed()
    ensures PartitionInput(Ids([StubId])) == Partition([], StubInput)
  {
    StubIdIsKept();
    FilterSnoc([], StubId, IdCallback);
    assert [] + [StubId] == [StubId];
    FinalInputIsResidual(Ids([StubId]));
  }

  /** The names of the entries of a record input are distinct, as the keys of an object are. */
  ghost predicate DistinctNames(es: seq<Entry>) {
    forall i, j | 0 <= i < j < |es| :: es[i].name != es[j].name
  }

  /** `Object.fromEntries`: a later entry with the same name wins. */
  function ToRecord(es: seq<Entry>): (r: map<string, string>)
    ensures es != [] ==> es[|es| - 1].name in r && r[es[|es| - 1].name] == es[|es| - 1].id
  {
    if es == [] then map[] else map[es[0].name := es[0].id] + ToRecord(es[1..])
  }

  lemma {:induction false} ToRecordKeys(es: seq<Entry>)
    ensures forall k :: k in ToRecord(es) <==> exists e | e in es :: e.name == k
  {
    if es != [] {
      ToRecordKeys(es[1..]);
      assert forall e :: e in es <==> e == es[0] || e in es[1..];
    }
  }

  /** Every name maps to the id of its last entry in the list. */
  lemma ToRecordLastWins(es: seq<Entry>)
    ensures forall i | 0 <= i < |es| && (forall j | i < j < |es| :: es[j].name != es[i].name) ::
      es[i].name in ToRecord(es) && ToRecord(es)[es[i].name] == es[i].id
  {
    forall i | 0 <= i < |es| && (forall j | i < j < |es| :: es[j].name != es[i].name)
      ensures es[i].name in ToRecord(es) && ToRecord(es)[es[i].name] == es[i].id
    {
      ToRecordAt(es, i);
    }
  }

  /** The entry at index i decides its name's id when no later entry carries that name. */
  lemma {:induction false} ToRecordAt(es: seq<Entry>, i: nat)
    requires i < |es|
    requires forall j | i < j < |es| :: es[j].name != es[i].name
    ensures es[i].name in ToRecord(es) && ToRecord(es)[es[i].name] == es[i].id
  {
    var e, t := es[0], es[1..];
    ToRecordCons(e, t);
    assert es == [e] + t;
    if i == 0 {
      ToRecordKeys(t);
      forall x | x in t ensures x.name != e.name {
        var m :| 0 <= m < |t| && t[m] == x;
        assert es[m + 1] == x;
      }
    } else {
      assert es[i] == t[i - 1];
      forall j | i - 1 < j < |t| ensures t[j].name != t[i - 1].name {
        assert es[j + 1] == t[j];
      }
      ToRecordAt(t, i - 1);
    }
  }

  /** With distinct names, every entry's name maps to its own id. */
  lemma ToRecordOfDistinct(es: seq<Entry>)
    requires DistinctNames(es)
    ensures forall e | e in es :: e.name in ToRecord(es) && ToRecord(es)[e.name] == e.id
  {
    ToRecordLastWins(es);
    forall e | e in es ensures e.name in ToRecord(es) && ToRecord(es)[e.name] == e.id {
      var i :| 0 <= i < |es| && es[i] == e;
      assert forall j | i < j < |es| :: es[j].name != es[i].name;
    }
  }

  lemma {:induction false} KeptDistinct(es: seq<Entry>)
    requires DistinctNames(es)
    ensures DistinctNames(Kept(es, EntryCallback))
  {
    if es != [] {
      var e, t := es[0], es[1..];
      assert DistinctNames(t) by {
        forall i, j | 0 <= i < j < |t| ensures t[i].name != t[j].name {
          assert t[i] == es[i + 1] && t[j] == es[j + 1];
        }
      }
      KeptDistinct(t);
      var kt := Kept(t, EntryCallback);
      if EntryCallback(e).None? {
        var k := [e] + kt;
        forall i, j | 0 <= i < j < |k| ensures k[i].name != k[j].name {
          if i == 0 {
            assert k[j] == kt[j - 1] && kt[j - 1] in kt;
            var m :| 0 <= m < |t| && t[m] == kt[j - 1];
            assert es[m + 1] == t[m];
          }
        }
      }
    }
  }

  /**
   * The record `kept` is the record `es` restricted to the entries no
   * callback takes over, each name still mapped to its own id.
   */
  ghost predicate Restricts(kept: seq<Entry>, es: seq<Entry>) {
    (forall k :: k in ToRecord(kept) <==>
       k in ToRecord(es) && EntryCallback(Entry(k, ToRecord(es)[k])).None?) &&
    (forall k | k in ToRecord(kept) :: ToRecord(kept)[k] == ToRecord(es)[k])
  }

  /**
   * The record returned for a record input (with distinct names, as an
   * object's keys are) is the input record restricted to the entries no
   * callback took over.
   */
  lemma {:induction false} RecordResidual(es: seq<Entry>)
    requires DistinctNames(es)
    ensures DistinctNames(Kept(es, EntryCallback))
    ensures Restricts(Kept(es, EntryCallback), es)
  {
    KeptDistinct(es);
    if es != [] {
      var e, t := es[0], es[1..];
      assert es == [e] + t;
      assert DistinctNames(t) by {
        forall i, j | 0 <= i < j < |t| ensures t[i].name != t[j].name {
          assert t[i] == es[i + 1] && t[j] == es[j + 1];
        }
      }
      RecordResidual(t);
      ToRecordKeys(t);
      assert e.name !in ToRecord(t) by {
        forall m | 0 <= m < |t| ensures t[m].name != e.name {
          assert t[m] == es[m + 1];
        }
      }
      var kt := Kept(t, EntryCallback);
      ToRecordKeys(kt);
      RecordResidualStep(e, t, kt);
    }
  }

  lemma RecordResidualStep(e: Entry, t: seq<Entry>, kt: seq<Entry>)
    requires e.name !in ToRecord(t) && e.name !in ToRecord(kt) && Restricts(kt, t)
    ensures Restricts(if EntryCallback(e).None? then [e] + kt else kt, [e] + t)
  {
    ToRecordCons(e, t);
    if EntryCallback(e).None? {
      ToRecordCons(e, kt);
      KeptEntryStep(e, ToRecord(t), ToRecord(kt), ToRecord([e] + t), ToRecord([e] + kt));
    } else {
      DroppedEntryStep(e, ToRecord(t), ToRecord(kt), ToRecord([e] + t));
    }
  }

  lemma ToRecordCons(e: Entry, t: seq<Entry>)
    ensures ToRecord([e] + t) == map[e.name := e.id] + ToRecord(t)
  {
    assert ([e] + t)[1..] == t;
  }

  lemma KeptEntryStep(e: Entry, t: map<string, string>, kt: map<string, string>,
                      r: map<string, string>, kr: map<string, string>)
    requires e.name !in t && e.name !in kt && EntryCallback(e).None?
    requires forall k :: k in kt <==> k in t && EntryCallback(Entry(k, t[k])).None?
    requires forall k | k in kt :: kt[k] == t[k]
    requires r == map[e.name := e.id] + t && kr == map[e.name := e.id] + kt
    ensures forall k :: k in kr <==> k in r && EntryCallback(Entry(k, r[k])).None?
    ensures forall k | k in kr :: kr[k] == r[k]
  {
    assert Entry(e.name, e.id) == e;
  }

  lemma DroppedEntryStep(e: Entry, t: map<string, string>, kt: map<string, string>, r: map<string, string>)
    requires e.name !in t && e.name !in kt && EntryCallback(e).Some?
    requires forall k :: k in kt <==> k in t && EntryCallback(Entry(k, t[k])).None?
    requires forall k | k in kt :: kt[k] == t[k]
    requires r == map[e.name := e.id] + t
    ensures forall k :: k in kt <==> k in r && EntryCallback(Entry(k, r[k])).None?
    ensures forall k | k in kt :: kt[k] == r[k]
  {
    assert Entry(e.name, e.id) == e;
  }

  /** The hook as the test project configures it: `input: [join(dir, 'src', 'manifest.json')]`. */
  lemma ManifestPathInput(dir: string)
    ensures PartitionInput(Ids([dir + "/src/manifest.json"]))
         == Partition([AddFile(Asset(dir + "/src/manifest.json", Input, Manifest, None))], StubInput)
  {
    var id := dir + "/src/manifest.json";
    ManifestJsonIsManifest(dir + "/src", id);
    SingleClaimedId(id);
  }

  /** An array of one id that the callback takes over sends its event and falls back to the stub. */
  lemma SingleClaimedId(id: string)
    requires IdCallback(id).Some?
    ensures PartitionInput(Ids([id])) == Partition([IdCallback(id).value], StubInput)
  {
    assert [id][1..] == [];
    assert Sent([id], IdCallback) == [IdCallback(id).value];
    assert Kept([id], IdCallback) == [];
    FinalInputIsResidual(Ids([id]));
  }

  lemma ManifestJsonIsManifest(dir: string, id: string)
    requires id == dir + "/manifest.json"
    ensures IdCallback(id) == Some(AddFile(Asset(id, Input, Manifest, None)))
  {
    var name := "manifest.json";
    assert id == dir + "/" + name;
    BasenameOfJoin(dir, name);
    assert StartsWith(Basename(id), ManifestPrefix);
    assert !IsHtml(id) by {
      assert id[|id| - 1] == name[|name| - 1] == 'n';
      assert HtmlSuffix[|HtmlSuffix| - 1] == 'l';
    }
  }

  /** An HTML page whose basename starts with "manifest" is added as HTML, not as the manifest. */
  lemma HtmlWinsOverManifestName()
    ensures IdCallback("pages/manifest.html") == Some(AddFile(Asset("pages/manifest.html", Input, Html, None)))
    ensures EntryCallback(Entry("manifest", "pages/manifest.html"))
         == Some(AddFile(Asset("pages/manifest.html", Input, Html, Some("manifest"))))
  {
    assert IsHtml("pages/manifest.html");
  }

  /** A record input: the manifest entry loses its name, an HTML entry keeps it, the rest stays. */
  lemma RecordInputExample()
    ensures PartitionInput(Entries([
              Entry("manifest", "src/manifest.json"),
              Entry("popup", "src/popup.html"),
              Entry("background", "src/background.js")]))
         == Partition(
              [AddFile(Asset("src/manifest.json", Input, Manifest, None)),
               AddFile(Asset("src/popup.html", Input, Html, Some("popup")))],
              Record([Entry("background", "src/background.js")]))
  {
    ExampleEntriesFiltered();
    FinalInputIsResidual(Entries([
      Entry("manifest", "src/manifest.json"),
      Entry("popup", "src/popup.html"),
      Entry("background", "src/background.js")]));
  }

  lemma ExampleEntriesFiltered()
    ensures var es := [Entry("manifest", "src/manifest.json"), Entry("popup", "src/popup.html"),
                       Entry("background", "src/background.js")];
      Sent(es, EntryCallback)
        == [AddFile(Asset("src/manifest.json", Input, Manifest, None)),
            AddFile(Asset("src/popup.html", Input, Html, Some("popup")))] &&
      Kept(es, EntryCallback) == [Entry("background", "src/background.js")]
  {
    var e0, e1, e2 := Entry("manifest", "src/manifest.json"), Entry("popup", "src/popup.html"),
                      Entry("background", "src/background.js");
    var a0 := AddFile(Asset("src/manifest.json", Input, Manifest, None));
    var a1 := AddFile(Asset("src/popup.html", Input, Html, Some("popup")));
    ExampleEntries();
    var es := [e0, e1, e2];
    assert es[1..] == [e1, e2] && [e1, e2][1..] == [e2] && [e2][1..] == [];
    assert Sent([e2], EntryCallback) == [] && Kept([e2], EntryCallback) == [e2];
    assert Sent([e1, e2], EntryCallback) == [a1] && Kept([e1, e2], EntryCallback) == [e2];
  }

  lemma ExampleEntries()
    ensures EntryCallback(Entry("manifest", "src/manifest.json"))
         == Some(AddFile(Asset("src/manifest.json", Input, Manifest, None)))
    ensures EntryCallback(Entry("popup", "src/popup.html"))
         == Some(AddFile(Asset("src/popup.html", Input, Html, Some("popup"))))
    ensures EntryCallback(Entry("background", "src/background.js")) == None
  {
    assert "src/popup.html" == "src/popup" + HtmlSuffix;
    assert !EndsWith("src/manifest.json", HtmlSuffix) && !EndsWith("src/background.js", HtmlSuffix);
  }

  /** `ROOT`, if any, followed by events none of which is `ROOT`: only the first event is `ROOT`. */
  lemma RootComesFirst(root: Option<string>, rest: seq<Event>)
    requires forall e | e in rest :: e.AddFile?
    ensures forall i | 0 <= i < |RootEvents(root) + rest| ::
      (RootEvents(root) + rest)[i].Root? <==> i == 0 && root.Some?
  {
    var first := RootEvents(root);
    forall i | 0 <= i < |first + rest| ensures (first + rest)[i].Root? <==> i == 0 && root.Some? {
      if i < |first| {
        assert (first + rest)[i] == first[i] && first[i] in first;
      } else {
        assert (first + rest)[i] == rest[i - |first|] && rest[i - |first|] in rest;
      }
    }
  }

  /**
   * A fresh plugin whose `config` hook runs before its `options` hook, as
   * the bundler calls them: the supervisor hears the root, if any, before
   * any asset and nothing else arrives as `ROOT`.
   */
  method ConfigThenOptions<P, R>(root: Option<string>, options: BundlerOptions<P, R>)
    returns (events: seq<Event>)
    ensures events == RootEvents(root) + PartitionInput(options.input).events
    ensures forall i | 0 <= i < |events| :: events[i].Root? <==> i == 0 && root.Some?
  {
    var plugin := new ChromeExtension();
    plugin.Config(root);
    var _ := plugin.Options(options);
    events := plugin.sent;
    OptionsAddsOnlyInputs(options.input);
    RootComesFirst(root, PartitionInput(options.input).events);
  }
}
