# EV battery-swap dashboard: inventory, station map and booking rules in Dafny

This project models the parts of the EV battery-swap web dashboard that have rules to state, and proves properties about them. Everything else in the dashboard is request-and-render glue. The model covers three areas:

- **Staff inventory** (`Inventory`, in `inventory.dfy`).
  - Normalising the slot records returned by the slot-status endpoint.
  - The 30-cell slot grid and the colour of each cell.
  - The battery-type label and chemistry inference.
  - The Li-ion and LFP stand lists and the "ready for driver" counts.
  - The KPI summary with its bucket priorities.
- **Staff account wizard** (`AccountWizard`, in `wizard.dfy`). Creating a customer account goes through these steps:
  1. contact details and an OTP sent to the customer;
  2. OTP check;
  3. OCR of the vehicle registration;
  4. choice of a battery package;
  5. onboarding.

  Each handler is a transition on an immutable wizard record, with a request and its reply taken as one step. The buttons are guarded as the page guards them. This is the wizard used one reply at a time.

  `WizardPage` (in `wizard_page.dfy`) lets replies arrive later and in any order. While `accLoading` is set the page disables only the send, verify, OCR and onboard buttons. The inputs, "Back" and "Continue" stay live, and every reply clears `accLoading`. The atomic wizard is exactly the page on which each reply arrives before the next action. Three interleavings show which of its properties the page gives up.
- **Station map** (`StationFeatures`, `StationMap`, `BatteryReport` and `Html`).
  - Each render turns the station list into point features and rebuilds a registry of popups keyed by station name.
  - The map library is an abstract surface: sources, layers, images, the popups shown, and the one-time click handlers still armed. The map's asynchronous events (style load, marker image load) are explicit events.
  - A popup opens on a marker click or on an outside selection, and closes on the next map click.
  - Each popup loads its station's battery report. Reports are cached per station. The report is grouped by battery type with the SoH band counts summed, and rendered through `escapeHtml`.
  - The route line is replaced on every draw.
- **Driver booking history** (`BookingHistory`, in `booking.dfy`).
  - The Vietnamese status label and the status colour, which must agree.
  - The `my-bookings` URL built from the three filters with `URLSearchParams`.

Shared modules:

- `JsValues` gives JavaScript values and the operators the code relies on. These are truthiness, `??`, `||`, `String(...)`, `Number(...)`, `trim`, ASCII `toLowerCase` and `includes`.
- `Lists` gives an order-preserving `Filter` with its sub-list and multiplicity facts.

Each rule is a pure function, or a method, over immutable datatypes. Its contract states the property the code promises: an if-and-only-if, a bound, or a partition. Many properties relate the rule to a partner definition:

- a reference definition (grouping versus per-type sums; features versus filter-then-map);
- an inverse (`Unescape` of `escapeHtml`; decoding of the form-encoded query string);
- an invariant that every event preserves (the wizard's consistency; the map's popup and layer invariant).

## Model

| member | source | states |
|---|---|---|
| Inventory.NormalizeSlots | EV-Battery-Swap/src/pages/Dashboard/Staff/staff.jsx:430-450 | normalisation keeps the payload's length, and position i holds record i normalised with index i |
| Inventory.PickFirstKey | EV-Battery-Swap/src/pages/Dashboard/Staff/staff.jsx:431 | `firstDefined` returns the first candidate that is neither null nor undefined, so 0 and "" are kept |
| Inventory.PickFallback | EV-Battery-Swap/src/pages/Dashboard/Staff/staff.jsx:431-448 | when every candidate key is missing or null, the field takes its fallback |
| Inventory.NormalizedIdDefault | EV-Battery-Swap/src/pages/Dashboard/Staff/staff.jsx:433 | a slot without an id gets its position plus one |
| Inventory.NormalizedCodeDefault | EV-Battery-Swap/src/pages/Dashboard/Staff/staff.jsx:434 | a slot without a code gets "S" followed by its position plus one |
| Inventory.NormalizedIdKept | EV-Battery-Swap/src/pages/Dashboard/Staff/staff.jsx:433 | an id under the first defined key is kept unchanged, even when it is 0 or "" |
| Inventory.NormalizedTrimmed | EV-Battery-Swap/src/pages/Dashboard/Staff/staff.jsx:435-437 | the normalised state, condition and door have no surrounding white space |
| Inventory.LoadSlots | EV-Battery-Swap/src/pages/Dashboard/Staff/staff.jsx:412-458 | there is no error exactly when the reply is an array with no `null` element, and then the slots are its records normalised; a non-array gives "Unexpected payload", a `null` element the TypeError of reading `Slot_ID`; on any failure the slots are empty and the message is non-empty |
| Inventory.GridSlots | EV-Battery-Swap/src/pages/Dashboard/Staff/staff.jsx:43-58 | the grid has exactly 30 cells; the first min(n,30) are the slots in order; the rest are placeholders numbered by position, with no battery and state "Empty" |
| Inventory.ColorOf | EV-Battery-Swap/src/pages/Dashboard/Staff/staff.jsx:62-71 | the colour is one of the six listed, and it is the no-battery grey exactly for placeholders and battery-less slots |
| Inventory.ColorPrecedence | EV-Battery-Swap/src/pages/Dashboard/Staff/staff.jsx:63-70 | for a slot holding a battery, a damaged condition shows black whatever the state; otherwise weak or charging shows red; otherwise a reserved state shows amber; otherwise occupied-and-good shows green; anything else the default grey |
| Inventory.ReservedDamagedIsBlack | EV-Battery-Swap/src/pages/Dashboard/Staff/staff.jsx:66-69 | a reserved slot with a damaged battery is counted as reserved in the KPIs but shown black on the grid |
| Inventory.ColorAgreesWithBucket | EV-Battery-Swap/src/pages/Dashboard/Staff/staff.jsx:62-71 | the cell colour and the slot's KPI bucket agree: maintenance is black, charging red, full green, uncounted grey; amber only for reserved slots |
| Inventory.SelectedTypeLabel | EV-Battery-Swap/src/pages/Dashboard/Staff/staff.jsx:152-164 | no selection shows "—"; an explicit type name is shown trimmed; otherwise type id 1 gives "Lithium" and 2 gives "LFP"; with any other id the lower-cased chemistry decides as `inferChemFromSlot`'s last resort does: "lfp" in it gives "LFP", "lithium" in it or exactly "li" gives "Lithium", anything else "—" |
| Inventory.LabelOfTypedBattery | EV-Battery-Swap/src/pages/Dashboard/Staff/staff.jsx:155-158 | without a type name, type id 1 reads "Lithium" and type id 2 reads "LFP" |
| Inventory.InferChemSlotTypeWins | EV-Battery-Swap/src/pages/Dashboard/Staff/staff.jsx:503-506 | a slot type mentioning "lfp" or "li" decides the chemistry whatever the station id, chemistry string and type id; "lfp" gives LFP |
| Inventory.InferChemByParity | EV-Battery-Swap/src/pages/Dashboard/Staff/staff.jsx:507-510 | without a telling slot type, station 11 is LFP and 12 is Li-ion; every other non-zero id goes by parity (even is LFP) |
| Inventory.InferChemByStationId | EV-Battery-Swap/src/pages/Dashboard/Staff/staff.jsx:507-510 | without a telling slot type, station ids two apart agree, except across 0, 11 and 12 (9 and 11 disagree, as do 10 and 12) |
| Inventory.LabelAndChemistryCanDisagree | EV-Battery-Swap/src/pages/Dashboard/Staff/staff.jsx:152-164 | some battery is labelled "LFP" by its type id while chemistry inference calls it Li-ion |
| Inventory.StandLists | EV-Battery-Swap/src/pages/Dashboard/Staff/staff.jsx:521-553 | both stand lists are order-preserving sub-lists holding exactly the admitted slots, each as many times as in the slot list; every member is closed, has a code and a listed state; no slot is on both |
| Inventory.StandAgreesWithLabel | EV-Battery-Swap/src/pages/Dashboard/Staff/staff.jsx:152-164 | an untyped-name battery on the Li-ion stand is labelled "Lithium", and one on the LFP stand "LFP" |
| Inventory.ReadyCounts | EV-Battery-Swap/src/pages/Dashboard/Staff/staff.jsx:555-568 | each count is the size of its filter, and liionReady + lfpReady ≤ totalReady ≤ number of slots |
| Inventory.ReadyMeansSwappable | EV-Battery-Swap/src/pages/Dashboard/Staff/staff.jsx:556-562 | every counted slot is one of the slots, occupied, closed, holds a battery that is not weak, and has a code |
| Inventory.Summarize | EV-Battery-Swap/src/pages/Dashboard/Staff/staff.jsx:570-585 | each count equals the number of slots in that bucket under the priority reserved > maintenance > charging > full; the four counts sum to the counted slots and to at most the number of slots |
| AccountWizard.Tenths | EV-Battery-Swap/src/pages/Dashboard/Staff/staff.jsx:364 | the five steps are the page's 1, 1.5, 2, 3 and 3.9, one-to-one |
| AccountWizard.ErrorText | EV-Battery-Swap/src/pages/Dashboard/Staff/staff.jsx:796 | a thrown message is shown when it is non-empty, else the handler's fallback; never an empty error |
| AccountWizard.SendOtp | EV-Battery-Swap/src/pages/Dashboard/Staff/staff.jsx:772-800 | the step becomes 1.5 exactly on filled contact details and a successful send; the error clears exactly then; missing details give the contact message; a server failure gives its message or "Không gửi được OTP"; no other field changes |
| AccountWizard.VerifyOtp | EV-Battery-Swap/src/pages/Dashboard/Staff/staff.jsx:803-824 | the step becomes 2 exactly on a filled email and OTP and an accepted check; missing ones give the email/OTP message; a rejection gives its message or "OTP không hợp lệ"; no other field changes |
| AccountWizard.Pick | EV-Battery-Swap/src/pages/Dashboard/Staff/staff.jsx:856 | an OCR field comes from the first of final, overrides and suggests that holds the key, else "" |
| AccountWizard.UploadOcr | EV-Battery-Swap/src/pages/Dashboard/Staff/staff.jsx:827-878 | OCR never changes the step; no file gives the file message; a failed OCR shows its error or the fallback and changes nothing else; a successful one fills owner, VIN, plate and model by the final/overrides/suggests priority, takes the accepted models and clears the error; no other field changes |
| AccountWizard.Continue | EV-Battery-Swap/src/pages/Dashboard/Staff/staff.jsx:881-898 | continuing always reaches step 3; packages already loaded means nothing else changes; a loaded list is stored as received, `null`s included; a first package that is a record is preselected; a `null` first package leaves the selection and sets the `TypeError` message; a failed load keeps the list and shows its message or "Không tải được danh sách gói"; the error changes only in those two cases; no field other than step, list, selection and error changes |
| AccountWizard.OnboardCheck | EV-Battery-Swap/src/pages/Dashboard/Staff/staff.jsx:900-913 | validation reports missing email/OTP first, then missing VIN/plate/model, then a missing package, and passes exactly when all are present |
| AccountWizard.Onboard | EV-Battery-Swap/src/pages/Dashboard/Staff/staff.jsx:900-960 | the step becomes 3.9 exactly when validation passes and the server accepts, and the error is then cleared; a failed validation shows its message; a server failure shows its message or "Gộp verify & onboard thất bại"; no other field changes |
| AccountWizard.ApplyPreservesConsistent | EV-Battery-Swap/src/pages/Dashboard/Staff/staff.jsx:1224-1342 | with each reply arriving before the next action, every guarded UI event keeps the invariant: from step 2 on the email and OTP are filled, and when onboarded the vehicle and package are too |
| AccountWizard.RunConsistent | EV-Battery-Swap/src/pages/Dashboard/Staff/staff.jsx:1224-1342 | any sequence of UI events, each reply arriving before the next action, keeps a consistent wizard consistent |
| AccountWizard.StepChangesOnlyAlongEdges | EV-Battery-Swap/src/pages/Dashboard/Staff/staff.jsx:794 | with each reply arriving before the next action, the step moves only along the six edges: sent OTP 1→1.5, verified OTP 1.5→2, Back 2→1.5 and 3→2, Continue 2→3, onboarding 3→3.9 |
| AccountWizard.EdgesAreTaken | EV-Battery-Swap/src/pages/Dashboard/Staff/staff.jsx:1310-1311 | whenever an edge's condition holds, the event takes it |
| AccountWizard.OnboardedIsFinal | EV-Battery-Swap/src/pages/Dashboard/Staff/staff.jsx:954 | once onboarded no event changes anything, because no step's controls are shown (a reply still in flight can; see WizardPage.OcrLandsAfterOnboarding) |
| AccountWizard.MissingPackageOnlyFromServer | EV-Battery-Swap/src/pages/Dashboard/Staff/staff.jsx:910-913 | through the UI the "choose a package" message can only come back from the server, because the button is disabled without a package |
| AccountWizard.VerifyCheckMeansMissingEmail | EV-Battery-Swap/src/pages/Dashboard/Staff/staff.jsx:803-808 | with the OTP filled (the button's guard), the verify check fails exactly when the email is blank |
| AccountWizard.NullPackageFreezes | EV-Battery-Swap/src/pages/Dashboard/Staff/staff.jsx:886-891 | a loaded package list with a `null` anywhere is stored and crashes the package step's render (1325-1326); a `null` first package also sets the `TypeError` message; after the crash no event has any effect |
| WizardPage.AtomicIsPressThenReply | EV-Battery-Swap/src/pages/Dashboard/Staff/staff.jsx:772-960 | on an idle page, any wizard event's action followed at once by its reply, when a request went out, gives exactly the atomic wizard's result with nothing in flight |
| WizardPage.PageStepChanges | EV-Battery-Swap/src/pages/Dashboard/Staff/staff.jsx:1242-1335 | on the page the step changes only by Back (2→1.5, 3→2), Continue (2→3), or a successful reply to a request in flight, which moves to its own target (1.5, 2 or 3.9) from whatever step is current |
| WizardPage.RequestsSentOnlyAfterChecks | EV-Battery-Swap/src/pages/Dashboard/Staff/staff.jsx:1242-1335 | a request is sent only by its button, only when that button is enabled and its handler's checks pass, and it sets `accLoading`; otherwise the requests in flight stay, or lose exactly the one a reply answers, and that reply clears `accLoading` |
| WizardPage.OtpClearedWhileVerifying | EV-Battery-Swap/src/pages/Dashboard/Staff/staff.jsx:1247-1248 | clearing the OTP input while the OTP check is in flight, then a success, gives step 2 with an empty OTP, which breaks the atomic wizard's invariant |
| WizardPage.OnboardLandsAfterBack | EV-Battery-Swap/src/pages/Dashboard/Staff/staff.jsx:1334-1335 | Back while onboarding is in flight, then a success, moves step 2 to 3.9, which no atomic event does |
| WizardPage.OcrLandsAfterOnboarding | EV-Battery-Swap/src/pages/Dashboard/Staff/staff.jsx:1311 | with OCR in flight, Continue over a loaded list clears `accLoading`, onboarding can be sent and succeed, and the late OCR reply then rewrites the vehicle fields at 3.9 (an empty result leaves the VIN empty) |
| StationFeatures.Resolve | EV-Battery-Swap/src/components/Mapbox/MapboxMap.jsx:113-118 | lat/lng come from `lat ?? latitude` and `lng ?? longitude`; if either is undefined and coords is an array, both come from coords[1] and coords[0] |
| StationFeatures.FeaturesAreFilterMap | EV-Battery-Swap/src/components/Mapbox/MapboxMap.jsx:112-223 | the features are the stations whose resolved coordinates are both numbers, in input order, each carrying its position and only its name |
| StationFeatures.CoordsFallback | EV-Battery-Swap/src/components/Mapbox/MapboxMap.jsx:115-119 | a station with neither lat nor latitude is placed at its coords pair, longitude first, and only when both entries are numbers |
| StationFeatures.NullLatitudeSkips | EV-Battery-Swap/src/components/Mapbox/MapboxMap.jsx:113-119 | null latitudes are not undefined: with a defined longitude they block the coords fallback and the station is skipped |
| StationFeatures.RegistryKeys | EV-Battery-Swap/src/components/Mapbox/MapboxMap.jsx:108-160 | after a render with popups, the registry holds exactly the names of the placeable stations |
| StationFeatures.LastStationWins | EV-Battery-Swap/src/components/Mapbox/MapboxMap.jsx:155 | for a duplicated name the last placeable station owns the registry entry |
| StationFeatures.RegistryHandles | EV-Battery-Swap/src/components/Mapbox/MapboxMap.jsx:127-160 | each render's popups are new: their handles lie above every earlier one and below the next free handle |
| StationMap.StationsToUse | EV-Battery-Swap/src/components/Mapbox/MapboxMap.jsx:80-86 | a non-empty stations prop wins, else the fallback list when it is an array, else nothing is rendered |
| StationMap.RenderOnLoadedMap | EV-Battery-Swap/src/components/Mapbox/MapboxMap.jsx:105-240 | on a loaded map a render replaces the station features, starts the marker image only if the source is new, adds no layer, and rebuilds the registry with fresh popups showing the hint |
| StationMap.RenderBeforeLoadIsQueued | EV-Battery-Swap/src/components/Mapbox/MapboxMap.jsx:90-99 | before the style loads a render is only queued, and the registry is untouched |
| StationMap.LastRenderWins | EV-Battery-Swap/src/components/Mapbox/MapboxMap.jsx:90-99 | when the style loads, the last queued render decides the station features |
| StationMap.ImageOutcome | EV-Battery-Swap/src/components/Mapbox/MapboxMap.jsx:240-379 | a loaded and registered marker image gives the symbol layer with a click handler; a loaded image that `addImage` rejected gives a circle layer that still opens popups; a failed load gives a circle layer and no click handler |
| StationMap.LoadBattery | EV-Battery-Swap/src/components/Mapbox/MapboxMap.jsx:162-208 | a cached station renders from the cache with no request; a miss requests the station's id; a failed request, a `null` row or a throwing name filter shows "Failed to load battery info" and caches nothing; a usable reply caches exactly the selected rows and renders them; cached entries are never replaced |
| StationMap.StationRows | EV-Battery-Swap/src/components/Mapbox/MapboxMap.jsx:196-201 | a `null` row makes either filter throw; with a known id the rows are exactly the reply's rows with that stationId, in order, each as many times as in the reply; without one they are the name filter's result; a non-array `data` gives no rows |
| StationMap.SecondLoadIsCached | EV-Battery-Swap/src/components/Mapbox/MapboxMap.jsx:165-172 | after a usable reply, opening the popup again makes no request and shows the same report |
| StationMap.CachedRowsBelongToStation | EV-Battery-Swap/src/components/Mapbox/MapboxMap.jsx:196-203 | a station with a known id caches, in order, exactly its own rows of the reply, each as many times as in the reply |
| StationMap.CachedRowsByName | EV-Battery-Swap/src/components/Mapbox/MapboxMap.jsx:199-203 | a station without an id caches, in order, exactly the rows whose trimmed `stationName` equals its trimmed name, each as many times as in the reply |
| StationMap.ThrowingFilterCachesNothing | EV-Battery-Swap/src/components/Mapbox/MapboxMap.jsx:196-207 | a reply with a `null` row, or a name lookup that throws, shows the error text and leaves the station uncached |
| StationMap.CacheOnlyGrows | EV-Battery-Swap/src/components/Mapbox/MapboxMap.jsx:165-203 | no event removes or replaces a cached report |
| StationMap.ApplyOk | EV-Battery-Swap/src/components/Mapbox/MapboxMap.jsx:302-362 | every event keeps the invariant, in either click dispatch order: a shown popup is the recorded open one and is still armed; route and marker layers have their sources; a click handler means a marker layer, and a symbol marker layer means a click handler |
| StationMap.RunOk | EV-Battery-Swap/src/components/Mapbox/MapboxMap.jsx:411-454 | any event sequence keeps that invariant, so at most one popup is ever shown |
| StationMap.ClickOpensMarker | EV-Battery-Swap/src/components/Mapbox/MapboxMap.jsx:309-357 | if only the one-time handlers armed before a click run, clicking a marker whose popup is not armed shows that popup alone, records it as open, arms only it, and reports the name to the selection callback |
| StationMap.ClickOnArmedMarkerCloses | EV-Battery-Swap/src/components/Mapbox/MapboxMap.jsx:348-353 | if only the one-time handlers armed before a click run, clicking the marker of the armed popup closes it: the handler shows it again, then the earlier one-time handler removes it and clears the record |
| StationMap.MarkerClickClosesAtOnce | EV-Battery-Swap/src/components/Mapbox/MapboxMap.jsx:309-357 | if the one-time handlers are read after the layer handler, as in mapbox-gl's dispatch, a marker click shows and removes its popup in the same click: nothing stays shown or armed, the record is cleared, and the name still reaches the selection callback |
| StationMap.MarkerClickThenSelection | EV-Battery-Swap/src/components/Mapbox/MapboxMap.jsx:411-454 | in that order the clicked station's popup comes back through the selection effect: once the reported name is selected, the popup is shown alone, recorded as open and armed |
| StationMap.ClickElsewhereClosesAll | EV-Battery-Swap/src/components/Mapbox/MapboxMap.jsx:302-306 | in either dispatch order, a click that reaches no marker handler leaves no popup shown and none armed, clears the open record when its popup was armed, and changes nothing else |
| StationMap.ClickOnMarkerWithoutPopup | EV-Battery-Swap/src/components/Mapbox/MapboxMap.jsx:309-318 | in either dispatch order, clicking a marker that has no popup acts exactly like a click elsewhere: all popups close, and the open record is cleared when its popup was armed |
| StationMap.StaleOpenRecord | EV-Battery-Swap/src/components/Mapbox/MapboxMap.jsx:66-72 | after a teardown and rebuild the open record can name a popup that is not armed, because the record is a ref that outlives the map |
| StationMap.SelectShowsPopup | EV-Battery-Swap/src/components/Mapbox/MapboxMap.jsx:411-454 | selecting a registered station from outside shows its popup alone, records it and arms its close, without reporting a selection |
| StationMap.DrawRouteOn | EV-Battery-Swap/src/components/Mapbox/MapboxMap.jsx:460-481 | after a draw the route source exists exactly when a route was given, holding it with a line layer; every other source and layer is unchanged |
| StationMap.RouteLayerIff | EV-Battery-Swap/src/components/Mapbox/MapboxMap.jsx:460-481 | given the invariant, the route layer exists after a draw exactly when a route was given |
| StationMap.LastRouteWins | EV-Battery-Swap/src/components/Mapbox/MapboxMap.jsx:484-490 | the queued draws run when the style loads, and together they equal drawing only the last route |
| BatteryReport.RowsById | EV-Battery-Swap/src/components/Mapbox/MapboxMap.jsx:197-199 | the id filter keeps, in order, exactly the rows whose `String(stationId)` equals the station's, each as many times as in the input |
| BatteryReport.RowsByNameKeeps | EV-Battery-Swap/src/components/Mapbox/MapboxMap.jsx:199-201 | when no name throws, the name filter keeps, in order, exactly the rows whose trimmed `stationName` equals the trimmed name, each as many times as in the input |
| BatteryReport.RowsByName | EV-Battery-Swap/src/components/Mapbox/MapboxMap.jsx:199-201 | the name filter fails exactly when there are rows and a name is truthy but not a string; otherwise it keeps the rows whose trimmed name matches |
| BatteryReport.RowsByNameFails | EV-Battery-Swap/src/components/Mapbox/MapboxMap.jsx:199-201 | the same failure condition, stated over all row positions |
| BatteryReport.GroupedIsReference | EV-Battery-Swap/src/components/Mapbox/MapboxMap.jsx:515-524 | the grouping reduce yields one group per distinct `String(batteryType \|\| 'Unknown')`, in first-appearance order, each holding the counts of exactly its rows |
| BatteryReport.CountsAreSums | EV-Battery-Swap/src/components/Mapbox/MapboxMap.jsx:518-522 | each count is the sum of that field over the rows, with a missing field counting as 0 |
| BatteryReport.GroupCountsAreSums | EV-Battery-Swap/src/components/Mapbox/MapboxMap.jsx:515-524 | each group's Good/Average/Weak/Below75/Total is the sum of that field over the group's rows |
| BatteryReport.GroupKeysAreRowTypes | EV-Battery-Swap/src/components/Mapbox/MapboxMap.jsx:516 | the group titles are exactly the rows' battery-type keys, each once |
| BatteryReport.RenderSection | EV-Battery-Swap/src/components/Mapbox/MapboxMap.jsx:538-572 | a section's title is markup-safe and unescapes to the group's type |
| BatteryReport.NoDataIffEmpty | EV-Battery-Swap/src/components/Mapbox/MapboxMap.jsx:578 | the "Không có dữ liệu" placeholder appears exactly when there are no rows |
| Html.EscapeHtml | EV-Battery-Swap/src/components/Mapbox/MapboxMap.jsx:595-602 | the output has no `<`, `>`, `"` or `'`; every `&` starts one of the five entities; unescaping it gives back `String(str)` |
| Html.ChainIsPerChar | EV-Battery-Swap/src/components/Mapbox/MapboxMap.jsx:595-602 | because `&` is replaced first, the chained replacements equal escaping each character once |
| Html.UnescapeEscaped | EV-Battery-Swap/src/components/Mapbox/MapboxMap.jsx:595-602 | unescaping the per-character escape restores the input |
| BookingHistory.ToViStatus | EV-Battery-Swap/src/pages/Dashboard/Driver/Booking/BookingHistory.jsx:6-14 | the five keys, in any letter case, translate to their labels; another truthy status is shown unchanged; a falsy one becomes "-" |
| BookingHistory.StatusColor | EV-Battery-Swap/src/pages/Dashboard/Driver/Booking/BookingHistory.jsx:16-22 | a status the label table translates gets the colour of its label (reserved amber, expired red, completed green); any other status gets the default colour |
| BookingHistory.LabelAgreesWithColor | EV-Battery-Swap/src/pages/Dashboard/Driver/Booking/BookingHistory.jsx:6-22 | a status gets a translated label exactly when it gets a non-default colour |
| BookingHistory.SameLabelSameColor | EV-Battery-Swap/src/pages/Dashboard/Driver/Booking/BookingHistory.jsx:6-22 | two translated statuses share a label exactly when they share a colour |
| BookingHistory.CaseInsensitive | EV-Battery-Swap/src/pages/Dashboard/Driver/Booking/BookingHistory.jsx:14-17 | statuses equal up to letter case get the same colour and the same translated label |
| BookingHistory.ToViStatusAsWritten | EV-Battery-Swap/src/pages/Dashboard/Driver/Booking/BookingHistory.jsx:14 | the lookup as written returns an inherited member exactly for the keys "constructor" and "__proto__", and otherwise agrees with the corrected label |
| BookingHistory.ConstructorStatusShowsMember | EV-Battery-Swap/src/pages/Dashboard/Driver/Booking/BookingHistory.jsx:14 | status "Constructor" shows an inherited member as written, and shows "Constructor" once corrected |
| BookingHistory.Params | EV-Battery-Swap/src/pages/Dashboard/Driver/Booking/BookingHistory.jsx:45-48 | a parameter is added for each non-empty filter and never for an empty one; there are none exactly when all filters are empty |
| BookingHistory.ParamsOrder | EV-Battery-Swap/src/pages/Dashboard/Driver/Booking/BookingHistory.jsx:45-48 | parameters keep the order status, start, end |
| BookingHistory.QuestionMarkIffFilter | EV-Battery-Swap/src/pages/Dashboard/Driver/Booking/BookingHistory.jsx:50-52 | the URL contains "?" exactly when some filter is set |
| BookingHistory.FormRoundTrip | EV-Battery-Swap/src/pages/Dashboard/Driver/Booking/BookingHistory.jsx:45-52 | form-decoding the `URLSearchParams` encoding of any text (UTF-8 percent-escapes, space as "+") gives it back |
| BookingHistory.QueryRoundTrip | EV-Battery-Swap/src/pages/Dashboard/Driver/Booking/BookingHistory.jsx:45-52 | parsing the serialised query gives back exactly the filter parameters |

## Left out

- Network and storage. Every `fetch`, the `localStorage` token lookup and JSON parsing are left out. Each reply is a parameter of the event that consumes it: rows, a payload, or a failure.
- Async effects. The rendering of the battery report is atomic with its request. The transient "Loading battery info..." text and the duplicate request that two overlapping loads can make while the first is in flight are not modelled.
- The map library's internals, the DOM, `innerHTML` and `textContent`. The map is an abstract record of sources, layers, images, shown popups and armed handlers.
- The markup of the report table: the model keeps each section's escaped title and counts, not the HTML around them.
- The map library's click dispatch order is a parameter (`StationMap.Dispatch`), because the library is not part of this model. The layer handler always runs first. Then either only the one-time handlers registered before the click run, or the list is read after the layer handler, as mapbox-gl's `Evented.fire` does. The invariant and the click-elsewhere lemmas hold in both orders. StationMap.ClickOpensMarker and StationMap.ClickOnArmedMarkerCloses hold only in the first order; StationMap.MarkerClickClosesAtOnce and StationMap.MarkerClickThenSelection state the second. A click on a popup's close button is not a map click.
- Scroll restoration timers, `flyTo`, blurring the popup element, the hover cursor and the user-location effect are left out. They act only on the viewport or on `createMapManager`, which is not part of this model.
- The "Book Now" button is left out. It only passes the station to a callback of the parent page.
- Timer scheduling. `setTimeout` and the map's `load` deferral are pending queues that run when the style-load event arrives.
- The marker image outlives a rebuilt map in the browser. An image that finishes loading after the map was torn down and rebuilt would act on the new map. The model drops it with the old surface.
- A station list with a `null` entry makes `renderStations` throw a TypeError inside the effect. The station lists of the model hold records only, so that crash is not modelled.
- Inventory.LoadSlots: the message for a `null` element is V8's wording of the TypeError. Other engines word it differently.
- StationMap.Apply: a selection is an event of its own. The host decides when the selection effect runs. React's dependency comparison is not modelled.
- The fetch of the internal `stations.json` fallback list. Its result is the `internal` argument of a render.
- Numbers are integers of unbounded size.
  - Strings with fractions, exponents, hex, `0b`/`0o` prefixes or a trailing `.` convert to NaN. In JavaScript they have a value.
  - "Infinity" and "-Infinity" convert to NaN. In JavaScript they convert to the infinities.
  - `String(n)` prints every digit. JavaScript switches to exponent form from 1e21 on.
  - Magnitudes above 2^53 are exact. In JavaScript they lose precision.
  - Coordinates are integers.
  - `toFixed`, `toLocaleString` and the initial map centre are left out.
- Letter case is handled for ASCII only: `toLowerCase` maps A-Z and nothing else.
- Dafny characters are Unicode scalar values, so lone UTF-16 surrogates cannot be expressed. `URLSearchParams` would replace them.
- BatteryReport.GroupedIsReference: `Object.entries` lists integer-like keys first, in ascending order. The model keeps first-appearance order for every key, which matches only for keys that are not array indices.
- Prototype property names in objects used as dictionaries are handled only in the booking status lookup (see Findings). The battery groups, the popup registry and the report cache treat keys such as "constructor" as ordinary keys.
- Date formatting (`fmt`) is left out. It depends on the clock and the time zone.
- Price, SoH and distance formatting are left out. They are floating point.
- SearchForm, LocationPermissionModal and the JSX layout and styling are left out. MessageBox tones and the not-shown DispatchPanel are left out too.
- AccountWizard.ApplyPreservesConsistent: holds only when each reply arrives before the next action. On the page the OTP input stays editable while its verification request is in flight (WizardPage.OtpClearedWhileVerifying), and a late OCR reply rewrites the fields at 3.9 (WizardPage.OcrLandsAfterOnboarding).
- AccountWizard.RunConsistent: holds only for the atomic events, for the same two interleavings.
- AccountWizard.StepChangesOnlyAlongEdges: holds only for the atomic events. On the page a successful reply moves to its target from whatever step is current, for example 2→3.9 after Back (WizardPage.OnboardLandsAfterBack); WizardPage.PageStepChanges states the page's edges.
- AccountWizard.OnboardedIsFinal: holds only for the atomic events. A reply still in flight changes the onboarded wizard (WizardPage.OcrLandsAfterOnboarding).
- Replies on the page name the kind of request they answer. Replies to two requests of the same kind are not told apart beyond their position in flight. Payloads captured at press time are not kept, because the server is an oracle.
- After the package step's render crash the whole staff dashboard unmounts. The model freezes the wizard and does not model the rest of the page going blank.
- Field values of server records are primitives: `Value` has no object or array values. A `batteryType` of `{}` would group as "[object Object]", and a `status` of `{}` would make the status lookup return the object. Array elements are records or `null`; a primitive element such as a package `5` is not modelled.
- The OCR success pop-up and the onboarding success pop-up with its VNPay link are display-only and are not kept.
- OCR reply fields are taken to be strings. The raw OCR text and the VIN/plate validity hints are display-only and are not kept.
- BookingHistory.QuestionMarkIffFilter: assumes the configured base URL contains no "?". The configuration module is not part of this model.
- StationMap.LoadBattery: the report URL's `encodeURIComponent` of the id is not modelled. The request log records the id value.

## Findings

| source | as written | input that shows it | evidently intended | confidence | as-written member | corrected member |
|---|---|---|---|---|---|---|
| EV-Battery-Swap/src/pages/Dashboard/Driver/Booking/BookingHistory.jsx:14 | `STATUS_VI[key]` also finds members that every object inherits, so the lookup can return a function or a prototype object instead of a label | status "Constructor" (or "__proto__") | an untranslated status is shown as itself | not executed | BookingHistory.ToViStatusAsWritten | BookingHistory.ToViStatus |
