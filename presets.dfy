/**
 * The preset thumbnails of backend/server.py: the table `HAIRSTYLE_PRESETS`,
 * the lookup and decisions of `generate_preset_image`, and the batch loop of
 * `generate_all_preset_images`.
 *
 * The image model is the parameter `api`: given what the prompt interpolates
 * it yields base64 image data, no image, or an exception message. The
 * placeholder image and the PNG file written to disk are not modelled.
 */
module Presets {
  import opened Wrappers

  /** One preset record `{id, name, prompt}`; `prompt` is `None` for "なし". */
  datatype Preset = Preset(id: string, name: string, prompt: Option<string>)

  const MensPresets: seq<Preset> := [
    Preset("none", "なし", None),
    Preset("short", "ショート", Some("清潔感のある短髪、サイドすっきり、トップに軽い動き")),
    Preset("twoblock", "ツーブロック", Some("サイドを刈り上げたツーブロック、トップは長めで流す")),
    Preset("mash", "マッシュ", Some("丸みのあるマッシュヘア、前髪重め、柔らかい印象")),
    Preset("center", "センターパート", Some("センター分け、顔周りをフレーミング、韓国風")),
    Preset("wolf", "ウルフ", Some("ウルフカット、襟足長め、レイヤー多め、動きのあるスタイル")),
    Preset("perm", "パーマ", Some("ゆるめのパーマ、ナチュラルなウェーブ、こなれ感")),
    Preset("long", "ロング", Some("肩につく長さ、ナチュラルなストレート、清潔感"))
  ]

  const LadiesPresets: seq<Preset> := [
    Preset("none", "なし", None),
    Preset("short", "ショート", Some("耳が出るショートヘア、すっきりシルエット、女性らしい")),
    Preset("bob", "ボブ", Some("あご下ラインのボブ、内巻き、清楚な印象")),
    Preset("lob", "ロブ", Some("肩につくロングボブ、外ハネ、こなれ感")),
    Preset("medium", "ミディアム", Some("鎖骨ラインのミディアム、レイヤー入り、ナチュラル")),
    Preset("layer", "レイヤー", Some("たっぷりレイヤーの動きのあるスタイル、顔周りに軽さ")),
    Preset("long", "ロング", Some("胸下までのロングヘア、つやつやストレート、清楚")),
    Preset("wave", "ウェーブ", Some("ゆるふわウェーブ、巻き髪、華やかな印象"))
  ]

  /** `HAIRSTYLE_PRESETS[gender]`, or `None` when `gender` is not a key. */
  function PresetsFor(gender: string): (r: Option<seq<Preset>>)
    ensures r.Some? <==> gender == "mens" || gender == "ladies"
  {
    if gender == "mens" then Some(MensPresets)
    else if gender == "ladies" then Some(LadiesPresets)
    else None
  }

  /** Position of the first preset with the given id: `next((p for p in ... if p['id'] == id), None)`. */
  function FindFirst(presets: seq<Preset>, id: string): (r: Option<nat>)
    decreases |presets|
    ensures r.Some? ==> r.value < |presets| && presets[r.value].id == id
    ensures r.Some? ==> forall j :: 0 <= j < r.value ==> presets[j].id != id
    ensures r.None? <==> forall j :: 0 <= j < |presets| ==> presets[j].id != id
  {
    if presets == [] then None
    else if presets[0].id == id then Some(0)
    else match FindFirst(presets[1..], id)
      case None => None
      case Some(k) => Some(k + 1)
  }

  /** No two presets of a list share an id. */
  predicate IdsUnique(presets: seq<Preset>) {
    forall i, j :: 0 <= i < j < |presets| ==> presets[i].id != presets[j].id
  }

  /** In a list with unique ids, looking up a preset's id finds that preset. */
  lemma FindFirstOfMember(presets: seq<Preset>, k: nat)
    requires IdsUnique(presets) && k < |presets|
    ensures FindFirst(presets, presets[k].id) == Some(k)
  {
  }

  /** Both lists of the table have unique ids. */
  lemma TableIdsUnique()
    ensures IdsUnique(MensPresets) && IdsUnique(LadiesPresets)
  {
  }

  // ---------------------------------------------------------------------------
  // generate_preset_image
  // ---------------------------------------------------------------------------

  /** What the thumbnail prompt interpolates: `gender_en`, the preset's name and prompt. */
  datatype Thumbnail = Thumbnail(genderEn: string, name: string, prompt: string)

  /** The image model's answer. */
  datatype ApiReply = ImageData(base64: string) | NoImageData | ApiRaised(message: string)

  datatype PresetBody =
    | InvalidGender                                  // 400
    | InvalidPresetId                                // 400
    | Placeholder(preset: Preset)                    // 200, drawn locally
    | NotConfigured                                  // 500
    | GenerationFailed                               // 500, no image in the reply
    | Generated(image: string, path: string, preset: Preset)  // 200
    | Raised(message: string)                        // 500, the handler's `except`

  /** The status each body is answered with. */
  function StatusOf(body: PresetBody): int {
    match body
    case InvalidGender => 400
    case InvalidPresetId => 400
    case Placeholder(_) => 200
    case Generated(_, _, _) => 200
    case _ => 500
  }

  datatype PresetReply = PresetReply(status: int, body: PresetBody)

  function Reply(body: PresetBody): PresetReply {
    PresetReply(StatusOf(body), body)
  }

  /** `gender_en = 'man' if gender == 'mens' else 'woman'`. */
  function GenderEn(gender: string): string {
    if gender == "mens" then "man" else "woman"
  }

  /** The preset `generate_preset_image` resolves `gender` and `presetId` to, if any. */
  function PresetOf(gender: string, presetId: string): Option<Preset> {
    match PresetsFor(gender)
    case None => None
    case Some(presets) =>
      match FindFirst(presets, presetId)
      case None => None
      case Some(k) => Some(presets[k])
  }

  /** What the thumbnail prompt of a preset with a prompt interpolates. */
  function ThumbnailOf(gender: string, preset: Preset): Thumbnail
    requires preset.prompt.Some?
  {
    Thumbnail(GenderEn(gender), preset.name, preset.prompt.value)
  }

  /** `generate_preset_image(gender, preset_id)` with the image model as `api`. */
  function GeneratePresetImage(gender: string, presetId: string, configured: bool,
                               api: Thumbnail -> ApiReply): (r: PresetReply)
    ensures r.status == 200 <==> r.body.Placeholder? || r.body.Generated?
    ensures r.status == 400 <==> r.body == InvalidGender || r.body == InvalidPresetId
    ensures r.status == 200 || r.status == 400 || r.status == 500
    ensures r.body == InvalidGender <==> PresetsFor(gender).None?
    ensures r.body == InvalidPresetId <==>
              PresetsFor(gender).Some? && FindFirst(PresetsFor(gender).value, presetId).None?
    ensures r.body.Placeholder? <==> PresetOf(gender, presetId).Some? && PresetOf(gender, presetId).value.prompt.None?
    ensures r.body.Placeholder? ==> r.body.preset == PresetOf(gender, presetId).value && r.body.preset.id == presetId
    ensures r.body == NotConfigured <==>
              PresetOf(gender, presetId).Some? && PresetOf(gender, presetId).value.prompt.Some? && !configured
    ensures PresetOf(gender, presetId).Some? && PresetOf(gender, presetId).value.prompt.Some? && configured ==>
              var preset := PresetOf(gender, presetId).value;
              var reply := api(ThumbnailOf(gender, preset));
              && (r.body.Generated? <==> reply.ImageData? && reply.base64 != "")
              && (r.body == GenerationFailed <==> reply.NoImageData? || reply == ImageData(""))
              && (r.body.Raised? <==> reply.ApiRaised?)
              && (r.body.Raised? ==> r.body.message == reply.message)
    ensures r.body.Generated? ==>
              && PresetOf(gender, presetId) == Some(r.body.preset)
              && r.body.preset.id == presetId && r.body.preset.prompt.Some? && configured
              && api(ThumbnailOf(gender, r.body.preset)).ImageData?
              && r.body.image == "data:image/png;base64," + api(ThumbnailOf(gender, r.body.preset)).base64
              && r.body.path == "/images/presets/" + gender + "/" + presetId + ".png"
  {
    match PresetsFor(gender)
    case None => Reply(InvalidGender)
    case Some(presets) =>
      match FindFirst(presets, presetId)
      case None => Reply(InvalidPresetId)
      case Some(k) =>
        var preset := presets[k];
        if preset.prompt.None? then Reply(Placeholder(preset))
        else if !configured then Reply(NotConfigured)
        else
          match api(ThumbnailOf(gender, preset))
          case ImageData(data) =>
            if data == "" then Reply(GenerationFailed)
            else Reply(Generated("data:image/png;base64," + data,
                                 "/images/presets/" + gender + "/" + presetId + ".png", preset))
          case NoImageData => Reply(GenerationFailed)
          case ApiRaised(message) => Reply(Raised(message))
  }

  /** The thumbnail prompt is written for a man for `mens` and for a woman for `ladies`. */
  lemma ThumbnailGender(presetId: string)
    ensures PresetOf("mens", presetId).Some? && PresetOf("mens", presetId).value.prompt.Some? ==>
              ThumbnailOf("mens", PresetOf("mens", presetId).value).genderEn == "man"
    ensures PresetOf("ladies", presetId).Some? && PresetOf("ladies", presetId).value.prompt.Some? ==>
              ThumbnailOf("ladies", PresetOf("ladies", presetId).value).genderEn == "woman"
  {
  }

  /**
   * A preset without a prompt is answered with the placeholder: whatever the
   * configuration and the image model, the outcome is the same, with status 200.
   */
  lemma PlaceholderNeverCallsApi(gender: string, presetId: string, c1: bool, c2: bool,
                                 api1: Thumbnail -> ApiReply, api2: Thumbnail -> ApiReply)
    requires PresetsFor(gender).Some?
    requires FindFirst(PresetsFor(gender).value, presetId).Some?
    requires PresetsFor(gender).value[FindFirst(PresetsFor(gender).value, presetId).value].prompt.None?
    ensures GeneratePresetImage(gender, presetId, c1, api1) == GeneratePresetImage(gender, presetId, c2, api2)
    ensures GeneratePresetImage(gender, presetId, c1, api1).status == 200
  {
  }

  /** Without configuration every preset with a prompt fails with 500. */
  lemma UnconfiguredPromptFails(gender: string, presetId: string, api: Thumbnail -> ApiReply)
    requires PresetsFor(gender).Some?
    requires FindFirst(PresetsFor(gender).value, presetId).Some?
    requires PresetsFor(gender).value[FindFirst(PresetsFor(gender).value, presetId).value].prompt.Some?
    ensures GeneratePresetImage(gender, presetId, false, api) == Reply(NotConfigured)
  {
  }

  // ---------------------------------------------------------------------------
  // generate_all_preset_images
  // ---------------------------------------------------------------------------

  /** One step of the batch: a gender and the id of one of its presets. */
  datatype Item = Item(gender: string, id: string)

  /** How the call for one item ended: a returned status, or a raised exception. */
  datatype ItemOutcome = Returned(status: int) | Thrown(message: string)

  /** `f"{gender}/{preset['id']}"`. */
  function Label(it: Item): string {
    it.gender + "/" + it.id
  }

  /** What a failed item records: its label, with the exception text when one was raised. */
  function FailureEntry(it: Item, o: ItemOutcome): string {
    match o
    case Returned(_) => Label(it)
    case Thrown(message) => Label(it) + ": " + message
  }

  predicate Succeeded(o: ItemOutcome) {
    o.Returned? && o.status == 200
  }

  /** The items of one gender, in table order. */
  function ItemsOf(gender: string, presets: seq<Preset>): (r: seq<Item>)
    ensures |r| == |presets|
    ensures forall k :: 0 <= k < |r| ==> r[k] == Item(gender, presets[k].id)
  {
    seq(|presets|, k requires 0 <= k < |presets| => Item(gender, presets[k].id))
  }

  /** The genders in the order the batch visits them. */
  const Genders: seq<string> := ["mens", "ladies"]

  /** The items of the given genders, gender by gender. */
  function ItemsFor(genders: seq<string>): seq<Item>
    requires forall i :: 0 <= i < |genders| ==> PresetsFor(genders[i]).Some?
    decreases |genders|
  {
    if genders == [] then []
    else
      var last := genders[|genders| - 1];
      ItemsFor(genders[..|genders| - 1]) + ItemsOf(last, PresetsFor(last).value)
  }

  /** Every item the batch visits: all presets of `mens`, then all of `ladies`. */
  function AllItems(): (r: seq<Item>)
    ensures |r| == 16
  {
    AllItemsInOrder();
    ItemsFor(Genders)
  }

  /** The batch visits the `mens` table in order, then the `ladies` table. */
  lemma AllItemsInOrder()
    ensures ItemsFor(Genders) == ItemsOf("mens", MensPresets) + ItemsOf("ladies", LadiesPresets)
  {
    var mens := Genders[..1];
    assert mens == ["mens"] && mens[..0] == [] && Genders[..|Genders| - 1] == mens;
    assert ItemsFor(mens) == ItemsFor([]) + ItemsOf("mens", MensPresets);
  }

  /** The first item of each gender is its "なし" preset. */
  lemma NoneItems()
    ensures AllItems()[0] == Item("mens", "none") && AllItems()[8] == Item("ladies", "none")
  {
    AllItemsInOrder();
  }

  /** The two result lists after visiting `items` in order, as the loop builds them. */
  function Partition(items: seq<Item>, outcome: Item -> ItemOutcome): (seq<string>, seq<string>)
    decreases |items|
  {
    if items == [] then ([], [])
    else
      var before := Partition(items[..|items| - 1], outcome);
      var it := items[|items| - 1];
      if Succeeded(outcome(it)) then (before.0 + [Label(it)], before.1)
      else (before.0, before.1 + [FailureEntry(it, outcome(it))])
  }

  /** `results['success']` as a filter: the labels of the items whose status is 200, in order. */
  function Successes(items: seq<Item>, outcome: Item -> ItemOutcome): seq<string>
    decreases |items|
  {
    if items == [] then []
    else (if Succeeded(outcome(items[0])) then [Label(items[0])] else []) + Successes(items[1..], outcome)
  }

  /** `results['failed']` as a filter: the entries of all other items, in order. */
  function Failures(items: seq<Item>, outcome: Item -> ItemOutcome): seq<string>
    decreases |items|
  {
    if items == [] then []
    else (if Succeeded(outcome(items[0])) then [] else [FailureEntry(items[0], outcome(items[0]))])
         + Failures(items[1..], outcome)
  }

  /** Visiting one more item extends the success filter by its label exactly when it answered 200. */
  lemma {:induction false} SuccessesAppend(items: seq<Item>, it: Item, outcome: Item -> ItemOutcome)
    ensures Successes(items + [it], outcome) ==
            if Succeeded(outcome(it)) then Successes(items, outcome) + [Label(it)] else Successes(items, outcome)
    decreases |items|
  {
    if items != [] {
      assert (items + [it])[0] == items[0];
      assert (items + [it])[1..] == items[1..] + [it];
      SuccessesAppend(items[1..], it, outcome);
    } else {
      assert [it][1..] == [];
    }
  }

  /** Visiting one more item extends the failure filter by its entry exactly when it did not answer 200. */
  lemma {:induction false} FailuresAppend(items: seq<Item>, it: Item, outcome: Item -> ItemOutcome)
    ensures Failures(items + [it], outcome) ==
            if Succeeded(outcome(it)) then Failures(items, outcome)
            else Failures(items, outcome) + [FailureEntry(it, outcome(it))]
    decreases |items|
  {
    if items != [] {
      assert (items + [it])[0] == items[0];
      assert (items + [it])[1..] == items[1..] + [it];
      FailuresAppend(items[1..], it, outcome);
    } else {
      assert [it][1..] == [];
    }
  }

  /** The loop's two lists are exactly the two filters of the visited items. */
  lemma {:induction false} PartitionIsFilter(items: seq<Item>, outcome: Item -> ItemOutcome)
    ensures Partition(items, outcome) == (Successes(items, outcome), Failures(items, outcome))
    decreases |items|
  {
    if items != [] {
      var init, last := items[..|items| - 1], items[|items| - 1];
      assert init + [last] == items;
      PartitionIsFilter(init, outcome);
      SuccessesAppend(init, last, outcome);
      FailuresAppend(init, last, outcome);
      assert Successes(items, outcome) == Successes(init + [last], outcome);
      assert Failures(items, outcome) == Failures(init + [last], outcome);
      var before := Partition(init, outcome);
      assert before == (Successes(init, outcome), Failures(init, outcome));
      if Succeeded(outcome(last)) {
        assert Partition(items, outcome) == (before.0 + [Label(last)], before.1);
      } else {
        assert Partition(items, outcome) == (before.0, before.1 + [FailureEntry(last, outcome(last))]);
      }
    }
  }

  /** Every visited item lands in exactly one list. */
  lemma {:induction false} PartitionCounts(items: seq<Item>, outcome: Item -> ItemOutcome)
    ensures |Partition(items, outcome).0| + |Partition(items, outcome).1| == |items|
    decreases |items|
  {
    if items != [] {
      PartitionCounts(items[..|items| - 1], outcome);
    }
  }

  /** An item whose status is 200 has its label in the success list. */
  lemma {:induction false} SucceededIsListed(items: seq<Item>, outcome: Item -> ItemOutcome, k: nat)
    requires k < |items| && Succeeded(outcome(items[k]))
    ensures Label(items[k]) in Successes(items, outcome)
    decreases |items|
  {
    if k > 0 {
      SucceededIsListed(items[1..], outcome, k - 1);
    }
  }

  /** An entry of the success list is the label of some item whose status is 200. */
  lemma {:induction false} ListedSucceeded(items: seq<Item>, outcome: Item -> ItemOutcome, x: string)
    requires x in Successes(items, outcome)
    ensures exists k :: 0 <= k < |items| && Succeeded(outcome(items[k])) && x == Label(items[k])
    decreases |items|
  {
    if !(Succeeded(outcome(items[0])) && x == Label(items[0])) {
      ListedSucceeded(items[1..], outcome, x);
      var k :| 0 <= k < |items[1..]| && Succeeded(outcome(items[1..][k])) && x == Label(items[1..][k]);
      assert items[1..][k] == items[k + 1];
    }
  }

  /** Visiting one more item appends to exactly one of the two lists. */
  lemma VisitOne(visited: seq<Item>, it: Item, outcome: Item -> ItemOutcome)
    ensures var before := Partition(visited, outcome);
            Partition(visited + [it], outcome) ==
              if Succeeded(outcome(it)) then (before.0 + [Label(it)], before.1)
              else (before.0, before.1 + [FailureEntry(it, outcome(it))])
  {
    assert (visited + [it])[..|visited|] == visited;
  }

  lemma ItemsOfStep(gender: string, presets: seq<Preset>, n: nat)
    requires n < |presets|
    ensures ItemsOf(gender, presets[..n + 1]) == ItemsOf(gender, presets[..n]) + [Item(gender, presets[n].id)]
  {
  }

  lemma ItemsForStep(genders: seq<string>, n: nat)
    requires n < |genders| && forall i :: 0 <= i < |genders| ==> PresetsFor(genders[i]).Some?
    ensures ItemsFor(genders[..n + 1]) == ItemsFor(genders[..n]) + ItemsOf(genders[n], PresetsFor(genders[n]).value)
  {
    assert genders[..n + 1][..n] == genders[..n];
  }

  /** The whole batch: 16 items, each in exactly one list, the lists being the two filters. */
  lemma BatchPartition(outcome: Item -> ItemOutcome)
    ensures Partition(AllItems(), outcome) == (Successes(AllItems(), outcome), Failures(AllItems(), outcome))
    ensures |Partition(AllItems(), outcome).0| + |Partition(AllItems(), outcome).1| == 16
  {
    PartitionIsFilter(AllItems(), outcome);
    PartitionCounts(AllItems(), outcome);
  }

  /** The inner loop of `generate_all_preset_images`: one gender's presets, in order. */
  method VisitGender(gender: string, presets: seq<Preset>, outcome: Item -> ItemOutcome,
                     ghost done: seq<Item>, success0: seq<string>, failed0: seq<string>)
    returns (success: seq<string>, failed: seq<string>)
    requires (success0, failed0) == Partition(done, outcome)
    ensures (success, failed) == Partition(done + ItemsOf(gender, presets), outcome)
  {
    success, failed := success0, failed0;
    assert done + ItemsOf(gender, presets[..0]) == done;
    for pi := 0 to |presets|
      invariant (success, failed) == Partition(done + ItemsOf(gender, presets[..pi]), outcome)
    {
      var it := Item(gender, presets[pi].id);
      ItemsOfStep(gender, presets, pi);
      assert done + ItemsOf(gender, presets[..pi + 1]) == (done + ItemsOf(gender, presets[..pi])) + [it];
      VisitOne(done + ItemsOf(gender, presets[..pi]), it, outcome);
      match outcome(it) {
        case Returned(status) =>
          if status == 200 {
            success := success + [Label(it)];
          } else {
            failed := failed + [Label(it)];
          }
        case Thrown(message) =>
          failed := failed + [Label(it) + ": " + message];
      }
    }
    assert presets[..|presets|] == presets;
  }

  /** `generate_all_preset_images` with the per-item call abstracted as `outcome`. */
  method GenerateAllPresetImages(outcome: Item -> ItemOutcome) returns (success: seq<string>, failed: seq<string>)
    ensures (success, failed) == Partition(AllItems(), outcome)
    ensures success == Successes(AllItems(), outcome) && failed == Failures(AllItems(), outcome)
    ensures |success| + |failed| == 16
  {
    success, failed := [], [];
    for gi := 0 to |Genders|
      invariant (success, failed) == Partition(ItemsFor(Genders[..gi]), outcome)
    {
      var gender := Genders[gi];
      success, failed := VisitGender(gender, PresetsFor(gender).value, outcome,
                                     ItemsFor(Genders[..gi]), success, failed);
      ItemsForStep(Genders, gi);
    }
    assert Genders[..|Genders|] == Genders;
    BatchPartition(outcome);
  }

  /** The per-item outcome when the batch calls the modelled `generate_preset_image`. */
  function HandlerOutcome(configured: bool, api: Thumbnail -> ApiReply): Item -> ItemOutcome {
    (it: Item) => Returned(GeneratePresetImage(it.gender, it.id, configured, api).status)
  }

  /** Every item of the batch is a valid gender and a preset id that the lookup finds. */
  lemma BatchItemsAreFound(k: nat)
    requires k < |AllItems()|
    ensures PresetsFor(AllItems()[k].gender).Some?
    ensures var presets := PresetsFor(AllItems()[k].gender).value;
            FindFirst(presets, AllItems()[k].id).Some? &&
            presets[FindFirst(presets, AllItems()[k].id).value].id == AllItems()[k].id
  {
    TableIdsUnique();
    if k < 8 {
      FindFirstOfMember(MensPresets, k);
    } else {
      FindFirstOfMember(LadiesPresets, k - 8);
    }
  }

  /** The "なし" preset of either gender is answered with the placeholder. */
  lemma NonePresetIsPlaceholder(gender: string, configured: bool, api: Thumbnail -> ApiReply)
    requires gender == "mens" || gender == "ladies"
    ensures GeneratePresetImage(gender, "none", configured, api) == Reply(Placeholder(Preset("none", "なし", None)))
  {
    assert PresetsFor(gender).value[0] == Preset("none", "なし", None);
  }

  /** An item of id "none" whose call answered 200 is listed as "<gender>/none". */
  lemma PlaceholderListed(items: seq<Item>, outcome: Item -> ItemOutcome, k: nat, gender: string)
    requires k < |items| && items[k] == Item(gender, "none") && Succeeded(outcome(items[k]))
    ensures gender + "/none" in Successes(items, outcome)
  {
    SucceededIsListed(items, outcome, k);
    assert Label(items[k]) == gender + "/none";
  }

  /** The two "なし" presets always succeed in the batch, whatever the image model does. */
  lemma PlaceholdersAlwaysSucceed(configured: bool, api: Thumbnail -> ApiReply)
    ensures "mens/none" in Successes(AllItems(), HandlerOutcome(configured, api))
    ensures "ladies/none" in Successes(AllItems(), HandlerOutcome(configured, api))
  {
    var items := AllItems();
    var outcome := HandlerOutcome(configured, api);
    NoneItems();
    NonePresetIsPlaceholder("mens", configured, api);
    NonePresetIsPlaceholder("ladies", configured, api);
    assert "mens" + "/none" == "mens/none" && "ladies" + "/none" == "ladies/none";
    PlaceholderListed(items, outcome, 0, "mens");
    PlaceholderListed(items, outcome, 8, "ladies");
  }
}
