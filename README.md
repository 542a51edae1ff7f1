# Huawei mesh router: reboot buttons

A Dafny model of the button platform of the Huawei mesh router integration for
Home Assistant (`custom_components/huawei_mesh_router/button.py`). The platform
offers one "Reboot" button for the primary router and one for every satellite
router that the update coordinator discovers on the mesh. The model covers two
parts:

- **Names and ids** (module `Button`, file `button.dfy`). The display name is
  `"<device name> Reboot"`. The unique id is
  `"<coordinator unique id>_button_reboot_<suffix>"`, where the suffix is the
  lowered router serial number when the button has no MAC (Python `None` or
  `""`) and the lowered MAC otherwise. A button is bound to the device's MAC,
  or to no MAC for the primary router, and its action is always reboot.
  The coordinator is reduced to the three strings these names read from it:
  `Coordinator(uniqueId, serialNumber, primaryRouterName)`. A connected device
  is a record `ConnectedDevice(mac, name)`. Button fields are set once in the
  constructor and never change, so a button is a value (`datatype Button`).
- **Discovery registry** (module `Discovery`, file `discovery.dfy`). This is
  the `known_buttons` dictionary and the `on_router_added` callback in
  `async_setup_entry`, modelled as the class `ButtonPlatform`. The class holds
  the registry as a `map`. Its ghost state records the entities handed to the
  host (`async_add_entities`) and the order in which MACs were first seen.
  The constructor is setup: it adds the primary router's button and nothing
  else. `OnRouterAdded` is the callback, specified by the pure functions
  `Register` and `Emitted`. `ReplayRegistry` and `ReplayEmitted` fold those
  functions over any series of callbacks. On top of them the model proves
  that the registry only grows, that each newly seen MAC gets exactly one
  entity, and that repeating callbacks is idempotent. `ReplayConcat` splits a
  replay of `a + b` into a replay of `a` followed by one of `b`, so any
  registry that callbacks after setup produced stays described by a replay
  from the empty registry as more callbacks arrive.
  `SetupAndDiscover` connects these folds to the class: after setup and any
  series of callbacks, the registry and the host's entities are the folds
  from an empty registry, and the returned platform is fresh, so callers
  keep calling back on it (`ContinuedDiscoveryScenario`).
  `RepeatedDiscoveryScenario` uses this to show that
  a platform that sees the same routers twice ends as if it had seen them
  once, and that its satellite buttons have distinct MACs when every router
  carries its reported MAC. `DiscoveryScenario` is a
  client method: a satellite reported twice, whatever its MAC, gets exactly
  one button, named `"<name> Reboot"`.

Python's `lower()` is modelled on ASCII letters (`Ascii.Lower`, file
`ascii.dfy`). `known_buttons.get(mac)` is falsy exactly when `mac` is absent,
because entity objects are always truthy, so the model tests `mac in known`.

The registry is keyed by the MAC the callback receives, but the entity is
bound to `router.mac`. The function that calls the callback is not part of
this model, so distinct bound MACs (`SatelliteMacsDistinct`) are proved under
the hypothesis `Keyed` that every entry is bound to its own key.
`RegisterKeepsKeyed` shows that a callback with `router.mac == mac` preserves
that hypothesis.

Two consequences of the code as written are proved as lemmas:
- A satellite with an empty MAC gets the primary router's unique id
  (`EmptyMacSharesPrimaryUniqueId`).
- Two MACs that differ only in letter case get the same unique id
  (`SatelliteUniqueIdsAgreeUpToCase`), yet the registry files them as two keys.

## Model

| member | source | states |
|---|---|---|
| Ascii.Lower | custom_components/huawei_mesh_router/button.py:61 | lowering keeps the length and lowers each character on its own, A-Z to a-z |
| Ascii.LowerIsLowercase | custom_components/huawei_mesh_router/button.py:61 | a lowered string has no upper-case letter |
| Ascii.LowerOfLowercase | custom_components/huawei_mesh_router/button.py:61 | lowering a string with no upper-case letter returns it unchanged |
| Ascii.LowerIdempotent | custom_components/huawei_mesh_router/button.py:61 | lowering twice equals lowering once |
| Button.ButtonName | custom_components/huawei_mesh_router/button.py:32-36 | the name splits into the device name, one space, then the function label |
| Button.ButtonNameDeterminesDevice | custom_components/huawei_mesh_router/button.py:36 | for a fixed label, two names are equal if and only if the device names are equal |
| Button.ButtonUniqueId | custom_components/huawei_mesh_router/button.py:54-61 | the id is the coordinator id verbatim, `_`, the function id verbatim, `_`, then the lowered serial number when the MAC is None or empty and the lowered MAC otherwise; that tail has no upper-case letter |
| Button.UniqueIdInjective | custom_components/huawei_mesh_router/button.py:59-61 | with the coordinator and function id fixed, two ids are equal if and only if their lowered suffixes are equal |
| Button.NewRebootButton | custom_components/huawei_mesh_router/button.py:149-173 | a reboot button is bound to the device's MAC and named `<device name> Reboot`, or, when no device is given, bound to no MAC and named `<primary router name> Reboot`, for every device including one whose MAC is empty; its action is reboot, the only value of `Action` |
| Button.PrimaryRebootButton | custom_components/huawei_mesh_router/button.py:155-173 | the primary router's button has no MAC, is named `<primary router name> Reboot`, and has id `<uid>_button_reboot_<lowered serial>` |
| Button.SatelliteRebootButton | custom_components/huawei_mesh_router/button.py:155-173 | a satellite with a non-empty MAC gets a button bound to that MAC, named `<device name> Reboot`, with id `<uid>_button_reboot_<lowered MAC>` |
| Button.SatelliteUniqueIdsAgreeUpToCase | custom_components/huawei_mesh_router/button.py:169-173 | two satellites with non-empty MACs share a unique id if and only if their MACs are equal up to case |
| Button.SatelliteVersusPrimaryUniqueId | custom_components/huawei_mesh_router/button.py:169-173 | a satellite with a non-empty MAC shares the primary's unique id if and only if its MAC equals the serial number up to case |
| Button.EmptyMacSharesPrimaryUniqueId | custom_components/huawei_mesh_router/button.py:60 | a satellite with an empty MAC is bound to `""` but gets the same unique id as the primary router |
| Discovery.Register | custom_components/huawei_mesh_router/button.py:83-86 | the registry gains exactly the reported MAC as a key, keeps every existing entry unchanged, and files a new reboot button for that router when the MAC was unseen |
| Discovery.Emitted | custom_components/huawei_mesh_router/button.py:83-85 | the host receives one entity, the router's reboot button, for an unseen MAC and none for a known one |
| Discovery.ReplayGrows | custom_components/huawei_mesh_router/button.py:78-86 | after any series of callbacks the keys are the old keys plus the reported MACs, and no old entry is removed or overwritten |
| Discovery.ReplayEmitsOnePerNewMac | custom_components/huawei_mesh_router/button.py:81-86 | a series of callbacks hands the host exactly as many entities as it added keys to the registry |
| Discovery.ReplayOfKnownIsNoop | custom_components/huawei_mesh_router/button.py:83 | callbacks that report only known MACs leave the registry unchanged and add no entity |
| Discovery.ReplayIdempotent | custom_components/huawei_mesh_router/button.py:83-86 | repeating a series of callbacks a second time changes nothing and adds nothing |
| Discovery.ReplayConcat | custom_components/huawei_mesh_router/button.py:78-86 | a replay of `a + b` leaves the registry and hands the host the entities of a replay of `a` followed by a replay of `b` from the registry `a` left |
| Discovery.ReplayExtend | custom_components/huawei_mesh_router/button.py:83-86 | one more callback after a replay from setup gives the state of replaying the whole series: `Register` and `Emitted` of that callback applied to what the earlier ones left |
| Discovery.ReplayTwiceIsOnce | custom_components/huawei_mesh_router/button.py:83-86 | from setup, reporting the same routers twice leaves the same registry and the same host entities as reporting them once |
| Discovery.ReplayKeepsKeyed | custom_components/huawei_mesh_router/button.py:81-86 | when every router in a series carries its reported MAC, every entry stays bound to the MAC it is filed under |
| Discovery.RegisterKeepsKeyed | custom_components/huawei_mesh_router/button.py:81-86 | when the router carries the reported MAC, every entry stays bound to the MAC it is filed under |
| Discovery.ButtonPlatform.constructor | custom_components/huawei_mesh_router/button.py:67-78 | setup hands the host exactly one entity, the primary router's reboot button with no MAC, and starts with an empty registry |
| Discovery.ButtonPlatform.OnRouterAdded | custom_components/huawei_mesh_router/button.py:80-86 | for an unseen MAC, one new button is appended to the host's entities and filed under that MAC, and no other key changes; a known MAC changes nothing; the invariant (primary first, satellites one-to-one with the keys) is kept |
| Discovery.SetupAndDiscover | custom_components/huawei_mesh_router/button.py:67-91 | setup followed by one callback per reported router leaves the registry and the host's entities exactly as the folds of `Register` and `Emitted` from an empty registry; the platform is fresh, so callbacks continue on it, and with `ReplayConcat` the state after further callbacks is the replay of the whole series from setup |
| Discovery.ButtonPlatform.OneButtonPerMac | custom_components/huawei_mesh_router/button.py:71-86 | the host holds exactly one entity per registered MAC plus the primary router's |
| Discovery.ButtonPlatform.SatelliteMacsDistinct | custom_components/huawei_mesh_router/button.py:78-86 | when every entry is bound to its key, all satellite entities have MACs and no two share one |

## Left out

- `_generate_button_id` and `generate_entity_id` (button.py:42-48): the slugging and collision rules are Home Assistant's own and are not visible here.
- `RoutersWatcher.look_for_changes` and the coordinator listener (button.py:88-93): they live in `update_coordinator`, which is not part of this model. Only the callback they invoke is modelled, as arbitrary series of `RouterAdded` events.
- Availability (`is_router_online`) and pressing (`execute_action`) (button.py:114-117, 133-135): these are calls into the coordinator and the router API client.
- `press()` (button.py:137-141): it submits a coroutine to the event loop from another thread and waits, which is concurrency.
- `async_added_to_hass`, `_handle_coordinator_update`, logging and unload wiring (button.py:119-131, 93): host lifecycle plumbing.
- `get_device_info`, the device class `RESTART` and the icon `mdi:restart` (button.py:112, 157, 174): opaque framework metadata with no behaviour.
- `ACTION_REBOOT` is defined in the router API client, which is not part of this model; the model uses the single action `Reboot` in its place.
- Ascii.Lower: models `str.lower()` on ASCII letters only; Unicode case mapping is not modelled.
- Discovery.ButtonPlatform.SatelliteMacsDistinct: distinct satellite MACs are proved only under `Keyed`, which holds when each callback's `router.mac` equals its `mac` argument; the watcher that makes those calls (`look_for_changes`) is not modelled, and a caller passing one router under two MACs would get two buttons bound to the same MAC.
- Discovery.SetupAndDiscover: the loop stands in for the watcher, whose own iteration order and diffing are not modelled.
- The coordinator's unique id, serial number and primary router name are read once and treated as fixed for the lifetime of the config entry; the source reads the serial number again each time a button is built, so a change between setup and a later discovery is not modelled.
- Object identity of entities: buttons are values, so two buttons with equal fields are indistinguishable in the model.
