/**
 * The decisions of a browser list item that do not depend on time: what a
 * resolved click asks for, and which actions the inline menu offers and what
 * each of them sends.
 */
module BrowserMenu {
  import opened Wrappers

  const MusicTrackClass := "object.item.audioItem.musicTrack"
  const AudioItemClass := "object.item.audioItem"
  const AudioBroadcastClass := "object.item.audioItem.audioBroadcast"
  const AddServiceAction := "addService"
  const ServiceAction := "service"

  datatype Metadata = Metadata(cls: string)

  /**
   * A list entry as the component sees it. `ref` stands for the identity of the
   * JavaScript object, so two entries with equal contents can still differ; an
   * absent `class` or `action` is the empty string.
   */
  datatype Item = Item(
    ref: nat,
    cls: string,
    action: string,
    hasTrackMetadata: bool,
    metadata: Option<Metadata>,
    parent: Option<Item>,
    service: Option<string>)

  /** The requests the list item hands to the browser-list actions. */
  datatype Request =
    | PlayNow(item: Item)
    | PlayNext(item: Item)
    | AddQueue(item: Item)
    | ReplaceQueue(item: Item)
    | Select(item: Item)
    | AddService(item: Item)
    | RemoveService(service: Option<string>)

  /** A track, a plain audio item, or an entry carrying track metadata. */
  predicate PlaysOnClick(item: Item) {
    item.cls == MusicTrackClass || item.cls == AudioItemClass || item.hasTrackMetadata
  }

  /** `_onClick`: the one request a resolved single click sends. */
  function OnClickRequest(item: Item): (r: Request)
    ensures r.PlayNow? <==> PlaysOnClick(item)
    ensures r.AddService? <==> !PlaysOnClick(item) && item.action == AddServiceAction
    ensures r.Select? <==> !PlaysOnClick(item) && item.action != AddServiceAction
    ensures !r.RemoveService? && r.item == item
  {
    if PlaysOnClick(item) then PlayNow(item)
    else if item.action == AddServiceAction then AddService(item)
    else Select(item)
  }

  datatype MenuEntry = PlayNowEntry | PlayNextEntry | AddQueueEntry | ReplaceQueueEntry | RemoveEntry

  /** `isPlayNow`: an audio item or a broadcast, which can only be played now. */
  predicate PlayNowOnly(item: Item) {
    item.cls == AudioItemClass || (item.metadata.Some? && item.metadata.value.cls == AudioBroadcastClass)
  }

  /** The entries the inline menu shows, in order. */
  function MenuEntries(item: Item, isExpanded: bool): (entries: seq<MenuEntry>)
    ensures entries != [] <==> isExpanded
    ensures RemoveEntry in entries <==> isExpanded && !PlayNowOnly(item) && item.action == ServiceAction
    ensures PlayNowEntry in entries <==> isExpanded && (PlayNowOnly(item) || item.action != ServiceAction)
    ensures PlayNextEntry in entries <==> isExpanded && !PlayNowOnly(item) && item.action != ServiceAction
    ensures AddQueueEntry in entries <==> PlayNextEntry in entries
    ensures ReplaceQueueEntry in entries <==> PlayNextEntry in entries
    ensures forall i, j :: 0 <= i < j < |entries| ==> entries[i] != entries[j]
  {
    if !isExpanded then []
    else if PlayNowOnly(item) then [PlayNowEntry]
    else if item.action == ServiceAction then [RemoveEntry]
    else [PlayNowEntry, PlayNextEntry, AddQueueEntry, ReplaceQueueEntry]
  }

  /** `_.get(model, 'parent') || model`: what the play entries act on. */
  function PlayTarget(item: Item): Item {
    if item.parent.Some? then item.parent.value else item
  }

  /** The request a menu entry sends. */
  function EntryRequest(item: Item, entry: MenuEntry): (r: Request)
    ensures entry == RemoveEntry <==> r.RemoveService?
    ensures r.RemoveService? ==> r.service == item.service
    ensures !r.RemoveService? ==> r.item == PlayTarget(item)
    ensures entry == PlayNowEntry <==> r.PlayNow?
    ensures entry == PlayNextEntry <==> r.PlayNext?
    ensures entry == AddQueueEntry <==> r.AddQueue?
    ensures entry == ReplaceQueueEntry <==> r.ReplaceQueue?
  {
    match entry
    case PlayNowEntry => PlayNow(PlayTarget(item))
    case PlayNextEntry => PlayNext(PlayTarget(item))
    case AddQueueEntry => AddQueue(PlayTarget(item))
    case ReplaceQueueEntry => ReplaceQueue(PlayTarget(item))
    case RemoveEntry => RemoveService(item.service)
  }
}
