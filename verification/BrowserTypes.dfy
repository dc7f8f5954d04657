/** Page observations as the browser backends exchange them. */
module BrowserTypes {
  import opened Wrappers

  datatype Identity = Identity(documentEpoch: int, actionRevision: int, observationId: int)

  /** An http or https address split after its origin, or any other text. */
  datatype Url = HttpUrl(origin: string, rest: string) | OtherUrl(text: string)

  datatype Tab = Tab(ref: string, url: Url, title: Option<string>, controlled: bool)

  datatype Checked = Unchecked | IsChecked | Mixed

  datatype Element = Element(
    ref: string,
    role: Option<string>,
    name: Option<string>,
    text: Option<string>,
    label_: Option<string>,
    withinText: Option<string>,
    regionText: Option<string>,
    interactable: Option<bool>,
    interactabilityReason: Option<string>,
    hidden: Option<bool>,
    viewport: Option<string>,
    value: Option<string>,
    disabled: Option<bool>,
    checked: Option<Checked>)

  datatype Region = Region(
    ref: string,
    text: string,
    actionRefs: seq<string>,
    links: seq<string>,
    hitTestable: bool,
    viewport: Option<string>,
    blockedBy: Option<string>)

  datatype Dialog = Dialog(id: string, kind: string, message: string, defaultPrompt: Option<string>)

  /** `unverified` holds documentChangeObserved and stateObservation of a dispatched-unverified outcome;
      `detail` stands for the added, removed and target element texts, opened tabs, transition and popup. */
  datatype ActionDelta = ActionDelta(
    beforeIdentity: Option<Identity>,
    afterIdentity: Identity,
    waitCondition: string,
    conditionMet: bool,
    urlChanged: bool,
    urlBefore: Option<Url>,
    urlAfter: Url,
    outcome: string,
    unverified: Option<(bool, string)>,
    detail: seq<string>)

  datatype Snapshot = Snapshot(
    sessionId: string,
    url: Url,
    identity: Identity,
    observedAt: string,
    readiness: Option<string>,
    sensitiveInputActive: bool,
    actionDelta: Option<ActionDelta>,
    title: Option<string>,
    text: Option<string>,
    tab: Option<Tab>,
    openedTabs: Option<seq<Tab>>,
    elements: Option<seq<Element>>,
    regions: Option<seq<Region>>,
    pendingDialogs: Option<seq<Dialog>>,
    frameTree: Option<seq<string>>,
    consoleHistory: Option<seq<string>>)

  predicate IsInteractable(e: Element) {
    e.interactable != Some(false) && e.hidden != Some(true) && e.disabled != Some(true)
  }
}
