// What the shell finds in the snapshot file that the two writers produce.

module SnapshotFields {
  import opened Json
  import opened JsonLookup
  import opened LoopScreen
  import opened MediaReference
  import opened Pipeline
  import opened Playlist
  import opened SnapshotWriters
  import opened Text

  const HEAD := "\"use strict\";\nwindow.KSO_PLAYER_BOOTSTRAP_SNAPSHOT = "

  /** The object that the script assigns; None if the text is anything but this one assignment. */
  function Assigned(script: string): Option<Value> {
    if |script| < |HEAD| || script[..|HEAD|] != HEAD then None
    else
      match ReadValue(script[|HEAD|..])
      case None => None
      case Some((v, rest)) => if v.Obj? && rest == ";\n" then Some(v) else None
  }

  predicate SaysText(v: Value, key: string, s: string) { Lookup(v, key) == Some(Str(s)) }

  /** A shell command: its mode, its method, the schema version and the payload. */
  predicate IsCommand(v: Value, mode: string, method': string, payload: Value) {
    && v.Obj? && |v.fields| == 4 && KeysSorted(v)
    && SaysText(v, "mode", mode) && SaysText(v, "method", method')
    && Lookup(v, "schemaVersion") == Some(Int(1)) && Lookup(v, "payload") == Some(payload)
  }

  /** The bucket of a duration, by name. */
  predicate BucketSays(payload: Value, durationMs: int) {
    && (SaysText(payload, "durationBucket", "short") <==> durationMs < 10000)
    && (SaysText(payload, "durationBucket", "medium") <==> 10000 <= durationMs <= 60000)
    && (SaysText(payload, "durationBucket", "long") <==> durationMs > 60000)
  }

  // ---------------------------------------------------------------- reading a script

  lemma ReadsScript(v: Value)
    requires v.Obj?
    ensures Assigned(JsContent(Encode(v, COMPACT_STYLE))) == Some(v)
  {
    var text := Encode(v, COMPACT_STYLE);
    var script := JsContent(text);
    assert script[..|HEAD|] == HEAD && script[|HEAD|..] == text + ";\n";
    SemicolonRoundTrip(v);
  }

  /** The reader stops at the semicolon behind an object. */
  lemma SemicolonRoundTrip(v: Value)
    requires v.Obj?
    ensures ReadValue(Encode(v, COMPACT_STYLE) + ";\n") == Some((v, ";\n"))
  {
    var t := EncodeFields(v.fields, COMPACT_STYLE) + "}" + ";\n";
    assert Encode(v, COMPACT_STYLE) + ";\n" == "{" + t;
    if v.fields == [] {
      assert t == "}" + ";\n";
    } else {
      FieldsRoundTrip(v.fields, COMPACT_STYLE, ";\n");
    }
    ObjectStep(t, v.fields, ";\n");
  }

  lemma TopKeys(v: Value)
    requires v.Obj? && |v.fields| == 4 && v.fields[0].key == "method" && v.fields[1].key == "mode"
    requires v.fields[2].key == "payload" && v.fields[3].key == "schemaVersion"
    ensures KeysSorted(v)
    ensures Lookup(v, "method") == Some(v.fields[0].value) && Lookup(v, "mode") == Some(v.fields[1].value)
    ensures Lookup(v, "payload") == Some(v.fields[2].value) && Lookup(v, "schemaVersion") == Some(v.fields[3].value)
  {
    LessAt("method", "mode", 1);
    LessAt("mode", "payload", 0);
    LessAt("payload", "schemaVersion", 0);
    FoundAt(v, 0);
    FoundAt(v, 1);
    FoundAt(v, 2);
    FoundAt(v, 3);
  }

  lemma WithReference(v: Value)
    requires v.Obj? && |v.fields| == 3
    requires v.fields[0].key == "durationBucket" && v.fields[1].key == "mediaRef" && v.fields[2].key == "mediaType"
    ensures KeysSorted(v)
    ensures Lookup(v, "durationBucket") == Some(v.fields[0].value)
    ensures Lookup(v, "mediaRef") == Some(v.fields[1].value) && Lookup(v, "mediaType") == Some(v.fields[2].value)
  {
    LessAt("durationBucket", "mediaRef", 0);
    assert "mediaRef"[..5] == "mediaType"[..5];
    LessAt("mediaRef", "mediaType", 5);
    FoundAt(v, 0);
    FoundAt(v, 1);
    FoundAt(v, 2);
  }

  lemma WithoutReference(v: Value)
    requires v.Obj? && |v.fields| == 2
    requires v.fields[0].key == "durationBucket" && v.fields[1].key == "mediaType"
    ensures KeysSorted(v) && Lookup(v, "durationBucket") == Some(v.fields[0].value)
    ensures Lookup(v, "mediaType") == Some(v.fields[1].value) && Lookup(v, "mediaRef") == None
  {
    LessAt("durationBucket", "mediaType", 0);
    FoundAt(v, 0);
    FoundAt(v, 1);
    assert |"durationBucket"| == 14 && |"mediaRef"| == 8 && |"mediaType"| == 9;
    NotFound(v.fields, "mediaRef");
  }

  lemma NamesDiffer()
    ensures "short" != "medium" && "medium" != "long" && "short" != "long" && "image" != "video"
  {
    assert |"short"| == 5 && |"medium"| == 6 && |"long"| == 4;
    assert "image"[0] == 'i' && "video"[0] == 'v';
  }

  // ---------------------------------------------------------------- the loop's file

  /**
   * What the loop's file for an item says: a render command whose bucket follows the duration, whose
   * type is video exactly for a MIME type that begins so, and whose reference is the item's own, or
   * its file in the media directory, or absent.
   */
  lemma LoopFileSays(item: Item)
    ensures
      var v := Assigned(LoopContent(item));
      && v.Some? && Lookup(v.value, "payload").Some?
      && var payload := Lookup(v.value, "payload").value;
      && IsCommand(v.value, "render", "setRenderPlan", payload) && KeysSorted(payload)
      && BucketSays(payload, item.durationMs)
      && (SaysText(payload, "mediaType", "video") <==> "video/" <= Lower(item.contentType))
      && (SaysText(payload, "mediaType", "image") <==> !("video/" <= Lower(item.contentType)))
      && (if item.mediaRef != "" then SaysText(payload, "mediaRef", item.mediaRef)
          else if item.filename != "" then SaysText(payload, "mediaRef", "media/current/" + item.filename)
          else Lookup(payload, "mediaRef") == None)
  {
    var v := LoopValue(item);
    ReadsScript(v);
    TopKeys(v);
    NamesDiffer();
    if LoopRef(item) == "" {
      WithoutReference(v.fields[2].value);
    } else {
      WithReference(v.fields[2].value);
    }
  }

  // ---------------------------------------------------------------- the pipeline's file

  /** The slot alias of an order: its decimal digits, at least three, behind the fixed directory. */
  predicate IsAliasOf(ref: string, order: nat) {
    && |ref| >= 22 && ref[..19] == "media/current/slot-" && AllDigits(ref[19..])
    && NatValue(ref[19..]) == order && (|ref| > 22 ==> ref[19] != '0')
  }

  /** What the pipeline's file for an image or a video says. */
  lemma PipelineFileSays(item: Item)
    requires item.order >= 0 && item.durationMs >= 0
    requires "image/" <= Lower(Strip(item.contentType)) || "video/" <= Lower(Strip(item.contentType))
    ensures
      var v := Assigned(JsContent(Serialize(SnapshotOf(item))));
      && v.Some? && Lookup(v.value, "payload").Some?
      && var payload := Lookup(v.value, "payload").value;
      && IsCommand(v.value, "render", "setRenderPlan", payload) && KeysSorted(payload)
      && BucketSays(payload, item.durationMs)
      && (SaysText(payload, "mediaType", "video") <==> "video/" <= Lower(Strip(item.contentType)))
      && (SaysText(payload, "mediaType", "image") <==> "image/" <= Lower(Strip(item.contentType)))
      && Lookup(payload, "mediaRef").Some? && Lookup(payload, "mediaRef").value.Str?
      && IsAliasOf(Lookup(payload, "mediaRef").value.s, item.order)
  {
    var s := SnapshotOf(item);
    var v := SnapshotValue(s);
    RenderIsNeverWithheld(s, item.order);
    ReadsScript(v);
    TopKeys(v);
    NamesDiffer();
    AliasShape(item.order);
    SlotRefChars(item.order);
    OnePrefix(Lower(Strip(item.contentType)));
    WithReference(v.fields[2].value);
  }

  lemma OnePrefix(s: string)
    ensures !("image/" <= s && "video/" <= s)
  {
    if "image/" <= s {
      assert s[0] == "image/"[0];
    }
  }

  lemma AliasShape(order: nat)
    ensures IsAliasOf(SlotRef(order), order)
  {
    var ref := SlotRef(order);
    assert |SLOT_PREFIX| == 19;
    assert ref[19..] == Padded(order, 3) && ref[..19] == SLOT_PREFIX;
    PaddedRoundTrip(order, 3);
  }

  // ---------------------------------------------------------------- holds

  lemma HoldSays()
    ensures
      var v := Assigned(JsContent(Encode(HOLD_VALUE, COMPACT_STYLE)));
      && v.Some? && Lookup(v.value, "payload").Some?
      && var payload := Lookup(v.value, "payload").value;
      && IsCommand(v.value, "hold", "setHold", payload) && payload.Obj? && |payload.fields| == 1
      && SaysText(payload, "reason", "hold")
  {
    ReadsScript(HOLD_VALUE);
    TopKeys(HOLD_VALUE);
  }

  /** Any snapshot that does not render is a hold. */
  lemma HoldFileSays(s: Snapshot)
    requires !s.render
    ensures
      var v := Assigned(JsContent(Serialize(s)));
      && v.Some? && Lookup(v.value, "payload").Some?
      && var payload := Lookup(v.value, "payload").value;
      && IsCommand(v.value, "hold", "setHold", payload) && payload.Obj? && |payload.fields| == 1
      && SaysText(payload, "reason", "hold")
  {
    HoldIsNeverForbidden();
    HoldSays();
  }

  lemma UnsortedKeys(v: Value)
    requires v.Obj? && |v.fields| == 4 && v.fields[0].key == "schemaVersion" && v.fields[1].key == "mode"
    requires v.fields[2].key == "method" && v.fields[3].key == "payload"
    ensures Lookup(v, "schemaVersion") == Some(v.fields[0].value) && Lookup(v, "mode") == Some(v.fields[1].value)
    ensures Lookup(v, "method") == Some(v.fields[2].value) && Lookup(v, "payload") == Some(v.fields[3].value)
  {
    assert |"schemaVersion"| == 13 && |"mode"| == 4 && |"method"| == 6 && |"payload"| == 7;
    FirstWithKey(v.fields, 0);
    FirstWithKey(v.fields, 1);
    FirstWithKey(v.fields, 2);
    FirstWithKey(v.fields, 3);
  }

  /** The loop's own hold file says the same as the pipeline's, with its members in another order. */
  lemma LoopHoldSays()
    ensures
      var v := Assigned(LoopHold());
      && v.Some? && v.value.Obj? && |v.value.fields| == 4
      && SaysText(v.value, "mode", "hold") && SaysText(v.value, "method", "setHold")
      && Lookup(v.value, "schemaVersion") == Some(Int(1)) && Lookup(v.value, "payload").Some?
      && SaysText(Lookup(v.value, "payload").value, "reason", "hold")
  {
    ReadsScript(LOOP_HOLD);
    UnsortedKeys(LOOP_HOLD);
  }

  /**
   * While the files do not change, the pipeline's file is a render command exactly if the gate plays,
   * the playlist is ready, and the MIME type of its first item begins as an image's or a video's.
   */
  lemma FileRendersExactly(staleSeconds: int, f: Files)
    requires staleSeconds > 0
    ensures
      var v := Assigned(JsContent(Serialize(BuildSnapshot(staleSeconds, (i: nat) => f))));
      v.Some? && (SaysText(v.value, "mode", "render") <==>
        && GatePlays(f, staleSeconds) && PlaylistReady(f)
        && ("image/" <= Lower(Strip(FirstItem(f).contentType)) || "video/" <= Lower(Strip(FirstItem(f).contentType))))
  {
    var s := BuildSnapshot(staleSeconds, (i: nat) => f);
    FrozenRenderExactly(staleSeconds, f);
    assert |"render"| == 6 && |"hold"| == 4;
    if s.render {
      FirstItemIsSane(f);
      PipelineFileSays(FirstItem(f));
    } else {
      HoldFileSays(s);
    }
  }
}
