# MicroBlaze OF platform-bus builder, modelled in Dafny

This project models `arch/microblaze/kernel/of_platform.c`. That file turns a device tree into registered platform devices. It has three parts:

- **`of_platform_device_create`** allocates a device for a node and gives it the 32-bit DMA mask and the OF platform bus. It then registers the device, and frees it again when registration fails.
- **`of_platform_bus_create`** creates a device for every child of a bus node and recurses into the children that match a match table. It stops at the first failure and rolls nothing back.
- **`of_platform_bus_probe`** is the entry point. It resolves the table: NULL selects `of_default_bus_ids` and `OF_NO_DEEP_PROBE` fails with -EINVAL. It resolves the root: NULL selects the tree root. Then it takes one of two branches:
  - When the root matches, it creates the root's device and walks the root as a bus.
  - Otherwise it creates devices only for the matching children, walking each as a bus.
- **`of_find_device_by_node`** and **`of_find_device_by_phandle`** scan the registered platform devices and return the first match.

Each operation is a pure function. It maps a `State` to the state it leaves and its return value. A `State` holds the registry of devices, in registration order, and the node reference counts. The layout:

- `devicetree.dfy` (module `DeviceTree`): nodes, match tables and `of_match_node`, reference counts, `of_node_get`/`of_node_put`, and the reference protocol of `for_each_child_of_node`.
- `ofplatform.dfy` (module `OfPlatform`): the operations of the file. Each `for_each_child_of_node` loop is split into a function for its body (`BusChild`, `ProbeChild`) and one for the loop itself (`BusLoop`, `ProbeLoop`). The loop function advances to the next child or breaks out.
- `busproofs.dfy` (module `BusProofs`) holds the properties of the bus walk:
  - reference balance;
  - when the walk succeeds;
  - what a walk in which nothing fails registers;
  - where a failing walk stops;
  - which nodes it can reach;
  - what the new devices look like.
- `probeproofs.dfy` (module `ProbeProofs`): the same properties for the probe and its two branches.
- `uniqueness.dfy` (module `Uniqueness`): on a tree whose node ids are unique, one walk or probe registers at most one device per node.
- `lookupproofs.dfy` (module `LookupProofs`): what the lookups find after the registry grows, or after a probe fails part-way.
- `scenario.dfy` (module `Scenario`): a worked probe of `/soc`, which contains `uart0` and `bridge`, with `bridge/dev0` below it.

Allocation (`of_device_alloc`), registration (`of_device_register`) and freeing (`of_device_free`) live elsewhere in the kernel, outside this model. Whether allocation or registration fails is a parameter, an `Oracle` that names the nodes for which each fails. The reference a device holds on its node is taken inside `of_device_alloc` and released by `of_device_free` on failure. So a failed creation changes nothing, and a successful one leaves that one reference held by the new device. The reference-balance lemmas therefore state that `Refs - Occ` is unchanged for every node. Here `Occ` counts the registered devices on that node. In words: every reference the code takes, it drops again, on every path, including the explicit `of_node_put` before each `break` and at `bail`.

The comment above `of_platform_bus_create` says its table may be NULL or `OF_NO_DEEP_PROBE`. The code handles neither. The function is static, and its only caller, `of_platform_bus_probe`, has already replaced NULL and rejected the sentinel. The model follows the code: `BusCreate` takes a resolved table.

The comment above `of_platform_bus_probe` says the root's children are not created unless the given root matches the table "and is not NULL". The code makes no such exception. With a NULL root it starts at the tree root, and if that matches, it creates the tree root's device and a device for every one of its children, exactly as for a given root. The model follows the code here as well, and `ProbeProofs.ProbeNullRootCreatesChildren` states this behaviour.

## Model

| member | source | states |
|---|---|---|
| `DeviceTree.NodeGet` | arch/microblaze/kernel/of_platform.c:124-127 | Taking a reference raises that node's count by one and leaves every other node's count alone. |
| `DeviceTree.NodePut` | arch/microblaze/kernel/of_platform.c:161-162 | Dropping a reference lowers that node's count by one and leaves every other node's count alone. |
| `DeviceTree.NextChild` | arch/microblaze/kernel/of_platform.c:82 | One step of `for_each_child_of_node` takes a reference on the next child and drops the one on the previous child, and changes nothing else. A finished loop holds no child reference; a loop broken at child i still holds child i's. |
| `OfPlatform.DeviceCreate` | arch/microblaze/kernel/of_platform.c:40-64 | The result is NULL exactly when allocation or registration fails, and then registry and counts are unchanged. On success the new device is appended at the end of the registry, for this node and parent, with DMA mask 0xffffffff and the OF platform bus, and the node's count is up by the one reference the device holds. |
| `OfPlatform.BusCreate` | arch/microblaze/kernel/of_platform.c:74-99 | `of_platform_bus_create` never removes a registered device and returns 0 or -ENOMEM. |
| `OfPlatform.BusChild` | arch/microblaze/kernel/of_platform.c:83-92 | The loop body for one child never removes a device and leaves rc at 0 or -ENOMEM. |
| `OfPlatform.BusLoop` | arch/microblaze/kernel/of_platform.c:82-97 | The loop from some child on never removes a device and yields 0 or -ENOMEM. |
| `OfPlatform.ProbeChild` | arch/microblaze/kernel/of_platform.c:147-155 | The body of the probe's child loop never removes a device and leaves rc at 0 or -ENOMEM. |
| `OfPlatform.ProbeLoop` | arch/microblaze/kernel/of_platform.c:146-160 | The probe's child loop never removes a device and yields 0 or -ENOMEM. |
| `OfPlatform.ProbeBody` | arch/microblaze/kernel/of_platform.c:135-160 | Both branches of the probe never remove a device and yield 0 or -ENOMEM. |
| `OfPlatform.ResolveTable` | arch/microblaze/kernel/of_platform.c:120-121 | NULL is replaced by the default table; a given table passes through unchanged. The result is the sentinel exactly when the argument was. |
| `OfPlatform.Probe` | arch/microblaze/kernel/of_platform.c:112-164 | -EINVAL is returned exactly when the caller passes `OF_NO_DEEP_PROBE`, NULL never gives it, and then nothing at all changes. Otherwise the result is 0 or -ENOMEM, and no registered device is removed. |
| `OfPlatform.BusFindDevice` | arch/microblaze/kernel/of_platform.c:176-177 | The scan returns the first platform-bus device the predicate accepts, and None exactly when there is none. |
| `OfPlatform.FindDeviceByNode` | arch/microblaze/kernel/of_platform.c:167-182 | The first platform device whose node is `np`, and None exactly when no platform device has that node. |
| `OfPlatform.FindDeviceByPhandle` | arch/microblaze/kernel/of_platform.c:184-200 | The first platform device whose node's phandle is `ph`, and None exactly when there is none. |
| `BusProofs.CreateBalance` | arch/microblaze/kernel/of_platform.c:46-61 | Device creation changes a node's count only by the reference the new device holds: the reference allocation takes is released again by the free on registration failure. |
| `BusProofs.BusCreateBalance` | arch/microblaze/kernel/of_platform.c:74-99 | After `of_platform_bus_create`, on success or failure, each node's count differs only by the references its new devices hold. |
| `BusProofs.BusLoopBalance` | arch/microblaze/kernel/of_platform.c:82-97 | The child loop releases the child reference it was entered with, by advancing to the end or by the `of_node_put` before `break`. |
| `BusProofs.BusChildBalance` | arch/microblaze/kernel/of_platform.c:84-91 | One loop body, including its recursive walk, leaves counts changed only by the references new devices hold. |
| `BusProofs.ProbeChildBalance` | arch/microblaze/kernel/of_platform.c:147-155 | The same for one body of the probe's child loop. |
| `BusProofs.ProbeLoopBalance` | arch/microblaze/kernel/of_platform.c:146-160 | The probe's child loop releases its iteration references on every exit, including the `of_node_put` before `break`. |
| `BusProofs.ProbeBodyBalance` | arch/microblaze/kernel/of_platform.c:135-160 | Both probe branches leave counts changed only by the references new devices hold. |
| `BusProofs.ProbeBalance` | arch/microblaze/kernel/of_platform.c:124-163 | Reference balance of the whole probe, on every success and failure path: the reference on the root taken at 124-127 is dropped at `bail`, and every other reference taken is dropped too. Only the references held by new devices remain. |
| `BusProofs.BusCreateSucceedsIff` | arch/microblaze/kernel/of_platform.c:74-99 | `of_platform_bus_create` returns 0 exactly when, for every child it visits, the device can be created and, if the child matches, the walk below it succeeds (`OkRange`); otherwise it returns -ENOMEM. |
| `BusProofs.BusLoopSucceedsIff` | arch/microblaze/kernel/of_platform.c:82-97 | The loop from child i yields 0 exactly when children i and later are all handled without error. |
| `BusProofs.BusChildSucceedsIff` | arch/microblaze/kernel/of_platform.c:84-92 | One body leaves rc at 0 exactly when the child's device can be created and, if the child matches, the walk below it succeeds. |
| `BusProofs.BusCreateMaterializes` | arch/microblaze/kernel/of_platform.c:82-98 | When nothing fails, the walk returns 0 and appends exactly `Materialized`: one device per child, whether it matches or not, in child order, each followed by the devices of its subtree when it matches. A child's subtree devices hang from that child's device. |
| `BusProofs.BusChildMaterializes` | arch/microblaze/kernel/of_platform.c:84-92 | A body whose child is handled without error appends exactly that child's `Share`: its device, then its subtree when it matches. |
| `BusProofs.BusLoopReaches` | arch/microblaze/kernel/of_platform.c:93-97 | While children are handled without error the loop neither breaks nor skips: it arrives at child k in the state `LoopStateAt` describes. |
| `BusProofs.LoopStateAtRegistry` | arch/microblaze/kernel/of_platform.c:82-97 | By the time the loop reaches child k, it has appended exactly the `Materialized` devices of the earlier children. |
| `BusProofs.BusCreateWithin` | arch/microblaze/kernel/of_platform.c:82-98 | Whatever fails, every device the walk registers belongs to a node below the bus node. |
| `BusProofs.BusLoopWithin` | arch/microblaze/kernel/of_platform.c:82-97 | Every device the loop registers from child i on belongs to child i or a later child, or to a node below one. |
| `BusProofs.BusChildWithin` | arch/microblaze/kernel/of_platform.c:84-92 | One body registers devices only for its child and the nodes below it. |
| `BusProofs.BusLoopStopsAt` | arch/microblaze/kernel/of_platform.c:93-96 | Early stop without rollback: if child k is the first child not handled without error, the loop returns -ENOMEM. The devices of the children before k are all still registered. Every device after them belongs to child k or a node below it, by node id. The registry the loop leaves is exactly the one child k's loop body leaves, so no later sibling is visited. If child k's own device failed, nothing at all is registered after the earlier ones. |
| `BusProofs.BusCreateFresh` | arch/microblaze/kernel/of_platform.c:50-51 | Whatever fails, every device the walk registers has DMA mask 0xffffffff and the platform bus, and its parent is the caller's parent or a device registered earlier by the same walk. |
| `BusProofs.BusLoopFresh` | arch/microblaze/kernel/of_platform.c:82-97 | The same for the loop from child i on. |
| `BusProofs.BusChildFresh` | arch/microblaze/kernel/of_platform.c:84-91 | The same for one body: the child's device hangs from the parent, its subtree from the child's device or later ones. |
| `BusProofs.MaterializedCovers` | arch/microblaze/kernel/of_platform.c:84-88 | Every child in a range, matching or not, has its device, parented at the caller's parent, among the devices that range registers. |
| `BusProofs.BusCreateEveryChildFound` | arch/microblaze/kernel/of_platform.c:84-88 | After a successful walk every direct child of the bus has a device hanging from the given parent, the node lookup finds a device for that node, and the phandle lookup finds a device with that child's phandle. That device may belong to another node when phandles are shared or absent, as in the code. |
| `BusProofs.BusLoopEarlierChildrenFound` | arch/microblaze/kernel/of_platform.c:93-96 | When child k fails, the loop returns -ENOMEM, yet every child before k keeps its device and the node lookup finds it. |
| `ProbeProofs.ProbeChildIsBusChild` | arch/microblaze/kernel/of_platform.c:151-155 | The probe handles a matching child exactly as `of_platform_bus_create` handles a child: create its device, then walk it as a bus. |
| `ProbeProofs.ProbeChildSucceedsIff` | arch/microblaze/kernel/of_platform.c:147-155 | One body of the probe's loop leaves rc at 0 exactly when the child does not match, or matches and is handled without error. |
| `ProbeProofs.ProbeLoopSucceedsIff` | arch/microblaze/kernel/of_platform.c:146-160 | The probe's child loop yields 0 exactly when every child from i on is skipped or handled without error. |
| `ProbeProofs.ProbeChildMaterializes` | arch/microblaze/kernel/of_platform.c:147-155 | A body of the probe's loop in which nothing fails registers nothing for a non-matching child and exactly the child's `Share` for a matching one. |
| `ProbeProofs.ProbeLoopReaches` | arch/microblaze/kernel/of_platform.c:156-159 | While children are skipped or handled without error, the probe's loop neither breaks nor skips a child: it arrives at child k in the state `ProbeStateAt` describes. |
| `ProbeProofs.ProbeStateAtRegistry` | arch/microblaze/kernel/of_platform.c:146-160 | By the time the probe's loop reaches child k, it has appended exactly the `ProbeMaterialized` devices of the earlier children. |
| `ProbeProofs.ProbeStateAtRegistryStep` | arch/microblaze/kernel/of_platform.c:146-160 | What the loop has registered from child i+1 on extends to child i by prepending child i's share. |
| `ProbeProofs.ProbeChildWithin` | arch/microblaze/kernel/of_platform.c:147-148 | One body of the probe's loop registers nothing for a non-matching child, and for a matching one only devices of nodes in its subtree. |
| `ProbeProofs.ProbeLoopWithin` | arch/microblaze/kernel/of_platform.c:146-160 | Whatever fails, the probe's loop registers devices only for matching children and the nodes below them (`ProbeReach`). |
| `ProbeProofs.ProbeChildFresh` | arch/microblaze/kernel/of_platform.c:151-155 | Every device a body of the probe's loop registers has the default mask and bus and hangs from the caller's parent or an earlier new device. |
| `ProbeProofs.ProbeLoopFresh` | arch/microblaze/kernel/of_platform.c:146-160 | The same for the whole loop. |
| `ProbeProofs.ProbeLoopStopsAt` | arch/microblaze/kernel/of_platform.c:156-159 | The probe's loop stops at the first matching child that fails and returns -ENOMEM. It keeps everything registered before that child. Every device after those belongs to that child or a node below it, by node id. The registry the loop leaves is exactly the one that child's loop body leaves, so no later child is visited. |
| `ProbeProofs.ProbeNullTable` | arch/microblaze/kernel/of_platform.c:120-121 | Passing NULL as the table behaves exactly as passing the default table. |
| `ProbeProofs.ProbeSucceedsIff` | arch/microblaze/kernel/of_platform.c:135-163 | With a real table, the probe returns 0 exactly when nothing fails (`ProbeOk`) and -ENOMEM otherwise. A matching start node is handled like a bus child; otherwise each of its children is skipped or handled like one. |
| `ProbeProofs.ProbeMaterializes` | arch/microblaze/kernel/of_platform.c:135-160 | When nothing fails, the probe returns 0 and appends exactly `ProbeDevices`. For a matching start node that is its own device, then one device per child, matching or not, all hanging from it. For a non-matching start node, the start node gets no device and only the matching children get devices, with their subtrees. |
| `ProbeProofs.ProbeNullRootCreatesChildren` | arch/microblaze/kernel/of_platform.c:124-145 | With a NULL root and a tree root that matches, a probe in which nothing fails returns 0, registers the tree root's device and registers a device for every child of the tree root, matching or not, parented at the tree root's device. |
| `ProbeProofs.ProbeRootMatch` | arch/microblaze/kernel/of_platform.c:135-145 | Root-match branch, whatever fails. If the start node's device cannot be created, the probe returns -ENOMEM and leaves the registry and every count as they were. Otherwise that device is registered first, and every later device is for a node below the start node and hangs from that device or a later one. |
| `ProbeProofs.ProbeNoMatch` | arch/microblaze/kernel/of_platform.c:146-160 | Non-matching-root branch, whatever fails. Every new device's node id is that of a matching child of the start node or of a node below one. Every new device hangs from the caller's parent or an earlier new device. |
| `Uniqueness.BusCreateDistinct` | arch/microblaze/kernel/of_platform.c:82-98 | On a tree with unique node ids, one bus walk registers at most one device per node, whatever fails. |
| `Uniqueness.BusLoopDistinct` | arch/microblaze/kernel/of_platform.c:82-97 | The same for the loop from child i on: different children's subtrees never share a node. |
| `Uniqueness.BusChildDistinct` | arch/microblaze/kernel/of_platform.c:84-92 | The same for one body: the child's own device and its subtree's devices are for different nodes. |
| `Uniqueness.ProbeChildDistinct` | arch/microblaze/kernel/of_platform.c:147-155 | The same for one body of the probe's loop. |
| `Uniqueness.ProbeLoopDistinct` | arch/microblaze/kernel/of_platform.c:146-160 | The same for the probe's whole child loop. |
| `Uniqueness.ProbeNoMatchSkipsStart` | arch/microblaze/kernel/of_platform.c:146-160 | Non-matching-root branch on a tree with unique ids: the start node gets no device, whatever fails. |
| `Uniqueness.ProbeDistinct` | arch/microblaze/kernel/of_platform.c:112-164 | One probe over a tree with unique ids registers at most one device per node, in both branches and whatever fails. |
| `LookupProofs.BusFindDeviceStable` | arch/microblaze/kernel/of_platform.c:176-177 | Registering more devices never changes what a successful scan finds. |
| `LookupProofs.FindDeviceByNodeStable` | arch/microblaze/kernel/of_platform.c:172-181 | A device `of_find_device_by_node` finds stays its answer as the registry grows. |
| `LookupProofs.FindDevicePhandleStable` | arch/microblaze/kernel/of_platform.c:190-199 | A device `of_find_device_by_phandle` finds stays its answer as the registry grows. |
| `LookupProofs.ProbeKeepsLookups` | arch/microblaze/kernel/of_platform.c:112-164 | A probe, however it ends, does not change the answer of a node lookup that already found a device. |
| `LookupProofs.ProbeEarlierChildrenFound` | arch/microblaze/kernel/of_platform.c:135-145 | Partial-failure persistence in the root-match branch. When child k of the matching start node fails, the probe returns -ENOMEM, yet every earlier child has its device, hanging from the start node's device, and the node lookup finds it. |
| `Scenario.SocProbeRegisters` | arch/microblaze/kernel/of_platform.c:135-145 | Probing `/soc`, a matching root with a non-matching `uart0` and a matching `bridge` holding `dev0`, returns 0 and registers four devices in this order: `/soc` with no parent; `uart0` and `bridge` hanging from `/soc`'s device; `dev0` hanging from `bridge`'s device. |
| `Scenario.SocLookups` | arch/microblaze/kernel/of_platform.c:190-199 | After that probe, phandle 7 finds the bridge's device and phandle 42 finds nothing. |
| `Scenario.SocReferences` | arch/microblaze/kernel/of_platform.c:124-162 | After that probe, each of the four nodes has exactly the one reference its device holds, and every other node has none. |

## Left out

- The bus-type object, its `uevent` hook and the `postcore_initcall` that registers it (lines 29-38), the `EXPORT_SYMBOL` lines and `pr_debug` output: none of them affects the behaviour modelled.
- `of_device_alloc`, `of_device_register` and `of_device_free` are not part of this model. Their outcome is the `Oracle` parameter, with one bit per node for each kind of failure.
- Two inputs are parameters rather than globals: `of_default_bus_ids` (`defaultIds`), and the node `of_find_node_by_path("/")` returns (`treeRoot`). That lookup returning NULL, which the code does not check, is not modelled.
- The `bus_id` argument of `of_platform_device_create` is not modelled: both callers here pass NULL, and only the allocator, which is outside this model, reads it.
- `of_match_node` is modelled as a scan of the table up to the all-empty terminator. An entry's name and type must equal the node's, and its compatible string must be one of the node's. The case-insensitive, prefix-tolerant compare of `of_device_is_compatible` is not modelled; it is exact equality here.
- The device reference that `bus_find_device` takes on the device it returns, never dropped by the lookups, is not modelled. Device reference counts are outside this model; only node reference counts are modelled.
- `dma_mask` is an `unsigned long`. The model stores the value 0xffffffff as an unbounded natural, which is exact because the value fits any width the code runs at.
- Concurrency between probes is not modelled. Each call is a function of the state before it.
- At most one device per node is proved for a single walk or probe over a tree with unique ids. Across repeated probes the code itself does not check for an existing device: a second device for a node is refused only by a registration failure. In the model that is an `Oracle` outcome.

