# spacetest: verified models of its namespace discipline and of the spacer protocol

`spacetest` helps unit tests to create Linux namespaces, to enter them, and to run functions in them. Two things have
to be right for a test process to survive this: an OS-level thread that ended up in the wrong namespaces must never
be given to another goroutine, and no descriptor may get lost on its way to and from the services ("spacers")
that make the namespaces which a multi-threaded process cannot make for itself. This project models both and proves
them. `dafny verify dfyconfig.toml` checks all of it.

## What is modelled

**Threads and namespaces.** `Namespaces` has a thread's view (one slot per file below `/proc/thread-self/ns`, thus two
for pid and time) and what `unshare` and `setns` do to it. `Kernel` has the operating system as classes: threads with
the Go lock count and a record of how they stood whenever they were unlocked, and a process with its descriptor table,
scheduled closes, children, the mount namespaces it has made private, and a count of failed system calls; every call may
fail at any time. `Transient`, `Execution` and `Routes` are `EnterTransient`, `NewTransient` (both also in `mntns`) and
`Execute` as methods in the order of the code's statements and deferred functions. `Execution.Prog` is the datatype of
all test bodies that can be nested from them; `Execution.Run` runs one. `Accounts` is what such a run has to account
for. `Pool` is the same discipline as a state machine with one step per system call, any number of goroutines, and the
Go scheduler; `Paths` shows that the methods are runs of it. `Rendezvous` is the channel protocol between callers and
their throw-away goroutines. `Mounts` is mount propagation with peer groups.

**The spacer protocol.** `Flags`, `Rooms` (with `Reports` for its error messages) and `Subspaces` are the two requests a
service handles; `Service` is its loop; `Clients` is the client's half; `Session` is a request across both processes'
tables. `Api` is `EncodeFds` and `DecodeFds`, `Uds` the size of control messages, `Delivery` the theorem about both
together. `GobMsg` and `Lockstep` are the stateful codec and the stream, and `Reuse` is what happens to a client that is
used after a failed call; `Lifetime` is a tree of services, and `Tree` shows that the clients' calls move in it; `PidFd`
finds a process number in `fdinfo`.

A panic and a failed `Expect` are both the outcome `Panic`. Descriptors passed in by callers are arbitrary numbers.

## What the proofs found

- Restoring backwards brings back every slot, except that a visited children slot (pid, time) falls back to the thread's
  own namespace: `Namespaces.BackwardRestore` has the exact condition. It matters for a pid reference inside an entered
  pid namespace.
- The two routes of `Execute` agree on every slot of the thread itself, but not always on the slots for its children:
  `Routes.RoutesAgreeExactly` has the exact condition.
- A `Rooms` call for more than four types is not delivered: `Delivery.DeliveredExactly` shows that four is the exact
  bound on 64-bit systems (`Uds.Capacity`), and `Session.RoomsSession` that a whole call gives the client all that it
  has requested if and only if that is at most four types. The later fields still carry the service's own descriptor
  numbers, because the message is encoded before `EncodeFds` empties the fields (`spacer/service/service.go:120` and
  `:130`), although the comment in `spacer/api/rooms.go:55-57` says that they are not transferred. The closes that
  `Rooms` schedules are then for these numbers.
- The descriptor that `Room` returns for a time namespace names the service's old one (`Rooms.CreateAndOpen`), as only
  children are in the new one.
- `MountSysfsRO` refuses the original mount namespace, but on a thread whose private remount failed a mount still
  propagates to the original one (`Mounts.BrokenThreadReachesHost`). In general the original mounts stay as they were if
  and only if nothing is mounted on a peer of one of them (`Mounts.HostChangesExactly`).
- `Subspace` crashes if and only if its socket pair cannot be made, as it then closes nil connections
  (`Subspaces.Subspace`).
- `Client.Subspace` leaves the child's connection and namespaces open when it cannot find out the child's number
  (`Clients.SubspaceCall`).
- A response that cannot be encoded leaves its descriptors open (`Service.Serve`).
- A client that is used again after a failed call takes the response to that call for the next one
  (`Reuse.StaleResponse`), unless that call has left nothing behind: `Reuse.FirstResponse` has the exact condition, for
  every course of events.
- The comment above `EnterTransient` leaves pid out of the supported types (`transient.go:40-54`); the code accepts it
  (`transient.go:71-77`), and so does `Transient.EnterTransient`.
- `SubspaceResponse.DecodeFds` panics if fewer than two descriptors arrive (`Api.SubspaceResponse.DecodeFds`).
- `PIDfromPIDFd` drops the last character of the `Pid:` line, newline or not (`PidFd.PIDfromPIDFd`).

## What is assumed

- `unshare(2)` refuses a user namespace in a multi-threaded process, and a second pid namespace on one thread;
  `setns(2)` refuses a user namespace. A refused call counts as a failed one.
- The Go runtime starts threads in the process's original state, ends a thread together with a goroutine that has it
  locked, and moves no goroutine that has its thread locked.
- Descriptor 0 stays open, so no other descriptor is 0; the code's tests for a positive descriptor rely on it.
- Asking an open namespace descriptor for its type succeeds in `DecodeFds`, which ignores errors.
- A process runs one service loop at a time while a child is started, so that the child inherits only the one descriptor
  that it is given: what `unix.Dup` and `unix.Open` make for another loop's response is not closed on execution
  (`spacer/service/spacer.go:157`, `:167`, `:177`).
- Writing a message to a stream socket makes it available as a whole.
- The descriptor tables have only the descriptors of this code's own. What the standard library opens beside them is not
  counted: a pipe for each output of a started service that is no file (`spacer/client.go:94-95`,
  `spacer/service/spacer.go:102-103`), and a process's handle until it has been waited for.

## Model

| member | source | states |
|---|---|---|
| `Namespaces.FoldIsLastWins` | execute.go:109-120 | Switching into a list of namespaces leaves, type by type, the last one of the list, and all other types as they were; the thread's own pid namespace never changes |
| `Namespaces.BackwardRestore` | execute.go:78-120 | For any list with any repetitions, and from any switch that failed, restoring backwards gives every slot its old value (children slots fall back to the thread's own), and the old view exactly if and only if the visited children slots were settled |
| `Routes.SeparateRefinesFold` | execute.go:145-208 | Whatever state the separate thread started in, each of its own slots is what the left fold of all references over the caller's view has: both routes refine one specification |
| `Routes.RoutesAgreeExactly` | execute.go:137-208 | The two routes give exactly the same view, children slots included, if and only if no home pid reference follows a foreign one and the caller's unreferenced children slots are settled |
| `Kernel.Task.TypeOf` | space.go:53-73 | The namespace type of an open descriptor; anything else fails the test |
| `Kernel.Task.IsOwn` | space.go:80-99 | Whether a descriptor names the thread's own namespace of a type |
| `Kernel.Task.OpenSelf` | space.go:117-119 | A new descriptor for the thread's own namespace, or a failure that changes nothing |
| `Transient.EnterTransient` | transient.go:67-88 | Exactly cgroup, ipc, net, pid and uts are accepted. On success the thread is locked once more and in a new namespace of the type alone, with a descriptor for the old one; on failure its view is unchanged and it stays locked, and an unsupported type is refused before anything is done. The thread is locked whenever it is changed, and never unlocked |
| `Transient.LeaveTransient` | transient.go:89-95 | Back in the old namespace, unlocked once and only then, and the descriptor closed, or a panic that leaves the thread locked |
| `Transient.CreateAndReturn` | transient.go:145-151 | The thread is back where it was and a descriptor names the new namespace, or a system call failed |
| `Transient.NewTransient` | transient.go:117-156 | Exactly cgroup, ipc, net and uts are accepted. On success view and lock count are as before, the thread was unlocked only when it was back, and one new descriptor names the new namespace and is scheduled for closing; otherwise the thread stays locked and at most the new namespace's descriptor is left |
| `Transient.EnterTransientMnt` | mntns/transient.go:52-68 | Success means a new mount namespace with private mounts only, and fs attributes of the thread's own |
| `Transient.LeaveTransientMnt` | mntns/transient.go:71-77 | Back in the old mount namespace with the descriptor closed, but never unlocked |
| `Transient.SetUpIdler` | mntns/transient.go:95-117 | The idler hands over a descriptor only after unsharing and remounting succeeded; it is scheduled for closing and names the new, private mount namespace |
| `Transient.NewTransientMnt` | mntns/transient.go:83-125 | A positive descriptor for a new private mount namespace, or a panic without any descriptor left; the idler's own thread stays locked on every path |
| `Execution.SwitchOne` | execute.go:110-119 | One round of the loop: the current namespace is saved before the switch, and a failed switch leaves the view |
| `Execution.SwitchAll` | execute.go:108-120 | After any number of rounds the saved descriptors hold exactly the namespaces before each switch, in order, also when one failed |
| `Execution.Restore` | execute.go:89-102 | The view is that of undoing, backwards, exactly the saves whose reattachment succeeded; a silent restore tries all of them whichever fail, and otherwise the first failure is the last try |
| `Execution.FinishInAndOut` | execute.go:79-106 | Unlocks if and only if the callback ended normally and every restore succeeded; closes all saved descriptors on every exit |
| `Execution.InAndOutBalances` | execute.go:75-123 | Switch, balanced callback and restore together balance, up to one stuck lock if the thread was not unlocked |
| `Execution.GoInAndOut` | execute.go:75-123 | fn runs at most once, with the view that the references say; the books balance, with the mount brackets that fn entered; without a failing system call it runs; every panic leaves the thread locked forever |
| `Execution.CallBack` | execute.go:122 | fn is called exactly once if all set-up succeeded, and otherwise not at all; what it does balances, with one lock for each mount bracket that it entered |
| `Execution.PickupTypes` | execute.go:145-156 | The types to take over from the caller are those not referenced |
| `Execution.OpenCurrent` | execute.go:157-160 | One new descriptor per type for the caller's namespace, each scheduled for closing |
| `Execution.PickUp` | execute.go:145-160 | One new descriptor for the caller's namespace of each type that is not referenced, or a failed system call |
| `Execution.VisitAll` | execute.go:193-204 | The worker attaches to each namespace in order, but skips its own |
| `Execution.SetUpWorker` | execute.go:181-204 | The worker is locked first and for good, has fs attributes of its own, and is in the mount namespace and all visited ones |
| `Execution.Worker` | execute.go:163-209 | What fn sees, whatever state the thread started in; on every exit none of the pickups is open, also after a panic, and the thread is locked and has never been unlocked between |
| `Execution.GoSeparate` | execute.go:137-215 | The caller's own thread is as before, locks included; the worker ran fn at most once, on a new thread that stays locked; no descriptor is lost unless a system call failed |
| `Execution.Classify` | execute.go:49-61 | The last mount namespace and all other references in order; fails only for a user namespace or a bad descriptor |
| `Execution.Execute` | execute.go:46-68 | Whatever route: fn runs at most once and never with a user namespace referenced, it does run if nothing failed, each slot it sees is that of the left fold of the references over the caller's view, and the caller's locks grow by fn's mount brackets only on the direct route |
| `Execution.RunEnter` | transient.go:67-96 | `defer EnterTransient(typ)(); body` restores what it found or leaves the thread locked; body ran in the caller's view with one namespace that was made during this very run; the locks that stay are those of body |
| `Execution.RunEnterMnt` | mntns/transient.go:52-78 | The same for mount namespaces, and in the new one all mounts were made private; exactly one lock more than body's stays, and it counts as stuck only if leaving failed |
| `Execution.RunNew` | transient.go:117-156 | `NewTransient` within a program balances, and its descriptor names a namespace that was made during this run |
| `Execution.RunNewMnt` | mntns/transient.go:83-125 | `mntns.NewTransient` within a program balances, never touches the caller's thread, and its descriptor names a mount namespace that was made, and made private, during this run |
| `Execution.Run` | transient.go:67-155 | Every nesting of the API, whichever system calls fail and wherever it panics: the view comes back and the lock count grows by exactly the mount brackets that were entered, or the thread is locked forever, and at no moment between was it unlocked in another state; stuck locks and lost descriptors are bounded by the failed calls (and the functions that a panic left). User code sees exactly what the nesting says: in a bracket the view around it with one namespace made just then, in an executed function the fold over the view around it of what the program's own descriptors name in the table; and it runs to its end unless a call fails, a user namespace is referenced, or the program panics by itself |
| `Execution.CleanUp` | space.go:120-122 | The scheduled closes run last first and leave none open |
| `Execution.Test` | space.go:111-124 | After a whole test and its cleanup the table is as before, but for at most one descriptor per failed call; an unlocked thread is as before, and so it was whenever it was unlocked during the test; after a normal end the thread has exactly one lock per mount bracket |
| `Accounts.ReleasedSeq` | transient.go:67-155 | If on each of two stretches the thread was only ever unlocked as it was found, then so it was on both together |
| `Pool.EnterKeeps` | transient.go:67-96 | Each system call of an entered bracket, with each result, keeps the pool invariant |
| `Pool.CreateKeeps` | transient.go:117-156 | Each system call of `NewTransient`, with each result, keeps it |
| `Pool.EnterMntKeeps` | mntns/transient.go:52-78 | Each system call of the mount bracket keeps it |
| `Pool.InAndOutKeeps` | execute.go:75-123 | Each save, switch and restore of `goInAndOut`, normal or panicking, keeps it |
| `Pool.WorkerKeeps` | spacer/service/spacer.go:300-346 | A throw-away goroutine may do anything to its thread, as it stays locked |
| `Pool.StepKeeps` | execute.go:75-123 | Every step of any call on a thread keeps the invariant |
| `Pool.LockedForever` | execute.go:79-106 | A lock without a call to release it is never released, and only a failed system call, a panic leaving `goInAndOut`, or a call that keeps its lock on purpose makes one |
| `Pool.NoTaintedThreadIsPooled` | execute.go:75-123 | In every state reached by any interleaving of goroutines, scheduler, failing system calls and panics, each thread that is not locked has its original namespaces and shared fs attributes |
| `Pool.StartIsSound` | space.go:42-47 | A process that has its initial thread locked for good by the main goroutine, and any number of other threads in their original state, starts in a state from which that holds |
| `Pool.PassedOn` | transient.go:78-79 | The scheduler can give a thread to another goroutine, with all that was done to it, exactly if it is not locked |
| `Pool.StartedAfresh` | execute.go:162-181 | A new goroutine can always be put on a new thread in its original state |
| `Paths.Enter` | transient.go:67-96 | `EnterTransient` with descriptors is a run of the pool's goroutine: inside the bracket with the old namespace saved, or panicking out of it with the lock kept |
| `Paths.Leave` | transient.go:89-95 | The same for the function that it returns |
| `Paths.Create` | transient.go:117-156 | The same for `NewTransient`, wherever it fails |
| `Paths.EnterMnt` | mntns/transient.go:52-70 | The same for the mount namespace's bracket |
| `Paths.LeaveMnt` | mntns/transient.go:71-77 | The same for leaving it, with the lock kept |
| `Paths.Worker` | execute.go:163-209 | The goroutine of `goSeparate`, whatever its function does, is a run of the pool's worker that ends on a thread that is still locked |
| `Paths.Separate` | execute.go:137-215 | Its caller is a run of the pool's goroutine that ends with the thread as it was |
| `Paths.Idler` | mntns/transient.go:86-117 | The idler is a run of the pool's worker on a thread that stays locked |
| `Paths.NewNamespace` | spacer/service/spacer.go:300-346 | So is the goroutine of `newNamespace` |
| `Paths.InAndOut` | execute.go:75-123 | `goInAndOut` made of its parts is a run of the pool's goroutine around any run that its function makes, whichever save, switch or restore fails, and ends with the thread that the parts leave behind |
| `Paths.RunKeeps` | execute.go:75-123 | So the invariant that keeps tainted threads out of the pool holds after each of these calls |
| `Rendezvous.HandedOverExactly` | execute.go:162-214 | In every run `goSeparate` rethrows if and only if its worker panicked, and `mntns.NewTransient` gets a namespace if and only if all set-up calls of its idler succeeded |
| `Rendezvous.NoDeadlock` | mntns/transient.go:86-124 | However deep calls nest, a waiting caller is always waiting for someone who can go on |
| `Rendezvous.WaitingIsBounded` | spacer/service/spacer.go:235-261 | Without new calls every run ends after a bounded number of steps |
| `Mounts.HostNeverChanges` | mntns/transient.go:60-67 | In any run in which only threads whose latest remount succeeded mount something, nothing is mounted on a peer of an original mount, and the original mounts stay as they are |
| `Mounts.HostChangesExactly` | mntns/sysfs.go:27-40 | In any run at all, with the guard that the code has and no other, the original mounts stay as they are if and only if nothing is mounted on a peer of one of them |
| `Mounts.FirstMountOnBrokenThread` | mntns/transient.go:66-67 | The first mount on a thread whose remount failed changes the original namespace if and only if its mount has a peer there |
| `Mounts.MountReachesHost` | mntns/sysfs.go:27-40 | A mount changes the original namespace if and only if it is made there or its mount has a peer there |
| `Mounts.BrokenThreadReachesHost` | mntns/sysfs.go:30-39 | The guard alone is not enough: after a failed remount `MountSysfsRO` reaches the original namespace |
| `Mounts.MountsWhereItShould` | mntns/sysfs.go:27-40 | After any run `MountSysfsRO` does mount in the thread's namespace; on a thread that was set up the mount is private, and no other mount and no other namespace changes; in the original namespace it changes nothing |
| `Mounts.EnterMountLeave` | mntns/transient.go:52-77 | Entering, mounting and leaving, from any state: the new namespace is a private copy with exactly the new mount, every other one is as before, and the thread is back |
| `Flags.RoomsMaskExact` | spacer/client.go:237-244 | The request asks for exactly the chosen types, and passes the service's checks unless none is chosen |
| `Flags.SubspaceMaskExact` | spacer/client.go:145-148 | The same for user and pid |
| `Flags.RoomsMaskNumber` | spacer/client.go:237-244 | The mask is the sum of the numbers of clone(2) for the chosen types |
| `Flags.SubspaceMaskNumber` | spacer/client.go:145-148 | The same for user and pid |
| `Flags.ProperExactly` | spacer/service/spacer.go:63-69 | A service accepts exactly the masks that have some bits of its own types and no other bit |
| `Api.Borrow` | spacer/api/fds.go:26-33 | A positive field is listed and zeroed, any other is left alone |
| `Api.RoomsResponse.EncodeFds` | spacer/api/rooms.go:58-65 | All positive fields are listed once, in field order, and zeroed |
| `Api.RoomsResponse.DecodeFd` | spacer/api/rooms.go:73-88 | One descriptor goes into the field of its type, or is closed |
| `Api.RoomsResponse.DecodeFds` | spacer/api/rooms.go:71-90 | All descriptors are placed by type, and exactly the strays are closed |
| `Api.SubspaceResponse.EncodeFds` | spacer/api/subspace.go:67-73 | All positive fields are listed once, connection and process first, and zeroed |
| `Api.SubspaceResponse.DecodeFd` | spacer/api/subspace.go:83-90 | One descriptor goes into the field of its type, or is closed |
| `Api.SubspaceResponse.DecodeFds` | spacer/api/subspace.go:79-92 | The first two by position, all others by type, strays closed; panics if and only if there are fewer than two |
| `Uds.Capacity` | uds/uds.go:77-91 | A buffer for n descriptors holds exactly n rounded up to even on 64-bit systems, and exactly n on 32-bit systems |
| `Uds.Capacities` | spacer/client.go:291 | Four descriptors for the client's 3, none for the service's 0; headers of 16 and 12 bytes |
| `Uds.ReceiveFds` | uds/uds.go:77-78 | The kernel installs new descriptors for the first files in order, as many as fit |
| `Uds.ReceiveWithFds` | uds/uds.go:72-98 | Descriptors are returned if and only if reading and parsing succeed; a message that cannot be read brings none, one that cannot be parsed has installed them all the same |
| `Delivery.EncodeDecode` | spacer/api/rooms.go:58-90 | Encoding and then decoding any permutation of the list gives the same fields, and closes nothing |
| `Delivery.EndToEnd` | spacer/client.go:291-305 | Each field among the first that fit has a new descriptor for the very object that the service's field named; a later one keeps the service's number |
| `Delivery.NothingLost` | spacer/client.go:298-303 | If all descriptors fit, the fields of the decoded response are exactly the received descriptors |
| `Delivery.DeliveredExactly` | spacer/client.go:291 | Every requested field names the right object if and only if the response has no more descriptors than fit (for objects that the client has no other descriptor for, such as new ones) |
| `Delivery.SubspaceDelivered` | spacer/api/subspace.go:67-92 | A subspace response always fits: connection, process and all requested namespaces arrive |
| `Rooms.CreateAndOpen` | spacer/service/spacer.go:316-345 | A positive descriptor for a new namespace (the old one for time), private throughout for mount, or nothing |
| `Rooms.NewNamespace` | spacer/service/spacer.go:300-346 | The same, with the descriptor for the caller's namespace closed on every path and the thread left locked, and back where it was unless a system call failed |
| `Rooms.UnshareOne` | spacer/service/spacer.go:235-261 | A requested type is made, or named in the error message; any other is left alone; the goroutine's thread stays locked |
| `Rooms.MissingInOrder` | spacer/service/spacer.go:263-268 | The failed types are requested ones, in creation order |
| `Reports.ReadReport` | spacer/service/spacer.go:252-258 | A message can be read back: it names each failed type by its name, in order and with its error, unless an error has a comma in it |
| `Rooms.CreateAll` | spacer/service/spacer.go:263-268 | The fields and the message account for all six types, and for every new descriptor |
| `Rooms.CloseFields` | spacer/service/spacer.go:270-288 | All positive fields are closed, and nothing else |
| `Rooms.Room` | spacer/service/spacer.go:219-293 | All or nothing: a positive descriptor for a new namespace for exactly the requested types, or an error, with the table as before and a failed system call for each type that was not made; the message, read back by the names below `/proc/thread-self/ns`, lists exactly these types in creation order, each with its error |
| `Subspaces.NewUnixConn` | uds/uds.go:112-128 | Takes over the descriptor: it is closed in any case, and a connection is a duplicate |
| `Subspaces.NewPair` | uds/uds.go:36-57 | Two connected ends, or no descriptor more than before; the process keeps count of the pairs that were made |
| `Subspaces.OpenIfRequested` | spacer/service/spacer.go:165-188 | Opens the child's namespace if and only if requested |
| `Subspaces.Describe` | spacer/service/spacer.go:157-212 | A complete response, or every descriptor closed again |
| `Subspaces.WithFarFile` | spacer/service/spacer.go:132-155 | The same from starting the child on |
| `Subspaces.WithPair` | spacer/service/spacer.go:90-97 | The same from duplicating the child's end on, which is the far one |
| `Subspaces.Subspace` | spacer/service/spacer.go:63-213 | Every error leaves the table as it was, also after the child was started; success adds exactly connection, process descriptor and the requested namespaces of the started child; a started child holds the far end of its pair and is in new namespaces of exactly the requested types and one for mounts; an error says what is wrong with the request or which step failed; a proper request crashes the service if and only if no pair was made, and no other request makes one |
| `Subspaces.BornInherits` | spacer/service/spacer.go:101-107 | The child is started with the file of the far end, and with flags for exactly the requested types and a mount namespace |
| `Subspaces.OnlyTheConnection` | spacer/service/spacer.go:71-79 | After success the response's connection is the service's only reference to either end of the pair |
| `Service.HandOverRooms` | spacer/service/service.go:120-145 | The message carries the very objects of the response, which was made from the table at the loop head, and every descriptor is closed whether or not it could be sent |
| `Service.HandOverSubspace` | spacer/service/service.go:120-145 | The same for subspaces |
| `Service.RespondRooms` | spacer/service/service.go:109-110 | A rooms request is answered by namespaces made for it, all of which are handed over, or by the very error that says what was wrong with it or which types could not be made |
| `Service.RespondSubspace` | spacer/service/service.go:107-108 | A subspace request is answered by the connection, process and namespaces of the one child started for it, or by the very error that says what was wrong with it or which step failed, or crashes |
| `Service.Respond` | spacer/service/service.go:105-145 | One request, one answer that was made in this process during this very request, and the table as before |
| `Service.Serve` | spacer/service/service.go:59-146 | For any number of requests: the table at every loop head and at the return is that at the start, the messages answer the requests one by one in order, each with what was made from the table at its own loop head and after all earlier ones, an error only for an improper request or for a system call that failed while this very request was served, each exit has its own cause, and after cancellation at most the request in progress is answered |
| `Service.NeverGivenTwice` | spacer/service/service.go:101-145 | No two answers of a service give away the same namespace (but for time) |
| `Clients.Do` | spacer/client.go:281-305 | Returns a response if and only if nothing failed and it is no error; the received descriptors are the client's |
| `Clients.TakeOverRooms` | spacer/client.go:246-267 | The client's fields name the service's namespaces, and are scheduled for closing |
| `Clients.RoomsCall` | spacer/client.go:234-268 | The client's first four requested types name the very namespaces that were made for the response, and no later one names a new descriptor of its type; with no more than four, these are all its new descriptors |
| `Clients.TakeOverSubspace` | spacer/client.go:298-299 | All of a subspace response arrives, and exactly one descriptor for the child's peer |
| `Clients.SubspaceCall` | spacer/client.go:142-176 | A response leaves in the client exactly the child's requested namespaces and the only descriptor for the child's peer; the call succeeds if and only if the connection could be made and the child's number is known, and else schedules no close |
| `Session.SubspaceSession` | spacer/client.go:142-176 | Across both tables: afterwards the new client's connection is the one and only reference to the peer of the child that the service has started, which holds the other end of that very pair; user and pid name that child's namespaces, and after a failed request there is nothing new; if nothing fails, the call succeeds |
| `Session.RoomsSession` | spacer/client.go:234-268 | Across both tables: the client has its own new descriptors for namespaces that the service has made during this call (private ones for mount), 0 for all unrequested types, and the service is as before; all requested types arrive if and only if there are at most four of them, and then the scheduled closes bring the client back, too |
| `Session.CountChosen` | spacer/client.go:237-244 | The requested types are as many as the arguments of the call that are set, for example five for all but uts |
| `Tree.Subspace` | spacer/client.go:142-176 | A call on the client of a service is a move of the tree that adds one service, kept alive by the new client's connection alone; after an error of the service, or if no connection could be made, no reference is left, whether or not a child was started |
| `Tree.Close` | spacer/client.go:106-113 | Closing a client is a move of the tree that leaves no reference to its service's peer, so that the service can end, and keeps every other service |
| `Tree.TreeStands` | spacer/client.go:106-176 | Over any sequence of calls, failed calls, closes and ends of services: the connections in the clients' table are all references there are, and every client that was not closed still has its service, which is alive |
| `Lifetime.OnlyItsOwnCloseEndsIt` | spacer/client.go:106-113 | In any run of a tree of services, one whose own client stays open is never ended |
| `Lifetime.CloseEnds` | spacer/client.go:106-113 | Closing a client ends its service, and no other but one whose response it has not received |
| `Lifetime.FailureEnds` | spacer/service/spacer.go:148-203 | A child whose request failed after it was started sees the end of its connection |
| `Lifetime.SentToNobodyEnds` | spacer/service/service.go:133-139 | A response keeps the child alive exactly as long as there is someone who can receive it |
| `GobMsg.DecodeEncoded` | spacer/gobmsg/gobmsg.go:41-80 | A decoder that knows what the encoder has described gets the value back, and knows as much as the encoder afterwards |
| `GobMsg.DescribedOnce` | spacer/gobmsg/gobmsg.go:41-47 | A later value of a type goes without descriptions, and the first subspace response brings those of its two structs |
| `GobMsg.Encoder.Encode` | spacer/gobmsg/gobmsg.go:41-47 | The loop over the needed types makes one self-contained message per value, with types described only once |
| `GobMsg.Decoder.Decode` | spacer/gobmsg/gobmsg.go:77-80 | The loop over the first n items of the buffer finds the first value in them, whatever is behind |
| `GobMsg.Decoder.Fill` | spacer/gobmsg/gobmsg.go:68-76 | Reading overwrites the buffer from its start, and leaves the old tail |
| `GobMsg.Transmit` | spacer/gobmsg/gobmsg.go:41-80 | A message written over whatever the buffer held comes out as the value that went in, with both codecs in step, if and only if it fits |
| `Lockstep.AlwaysInStep` | spacer/client.go:281-305 | In every run, with messages of any size, at most one message is under way in both directions together, and each decoder knows what its encoder sent but for what is under way |
| `Lockstep.TakeOne` | spacer/gobmsg/gobmsg.go:68-80 | A message under way comes out as its value if and only if it fits the buffer |
| `Lockstep.NothingLostOrSwapped` | spacer/service/service.go:59-145 | The n-th decoded value is the n-th encoded one, and responses answer requests one by one |
| `Lockstep.EndedForGood` | spacer/service/service.go:59-146 | A service that has returned hears and answers nothing more |
| `Reuse.StaleResponse` | spacer/client.go:289-292 | Using a client again after a failed call returns the response to that call |
| `Reuse.ReuseIsHarmless` | spacer/client.go:281-305 | A next call whose request the service reads and answers gets its own response, and leaves both ends in step, if and only if the failed call has left nothing under way and the service is listening |
| `Reuse.FirstResponse` | spacer/client.go:281-305 | In every course of events after the next request, with messages of any size: the first response that the client decodes is the one to that request if and only if the failed call has left nothing behind, and otherwise the one to the failed call's request |
| `Reuse.StaysBehind` | spacer/gobmsg/gobmsg.go:68-80 | What the failed call has left behind stays in front: its request or its response comes out first, or nothing does any more |
| `Lockstep.Call` | spacer/client.go:284-296 | The codec objects at both ends do in one call what the events of the stream do |
| `PidFd.PIDfromPIDFd` | spacer/pidfromfd.go:28-53 | The loop finds what the scan of all lines finds |
| `PidFd.ParseDecimal` | spacer/pidfromfd.go:46-49 | Exactly the 32-bit numbers survive printing and parsing, with or without a plus sign |
| `PidFd.ParsesNumbersOnly` | spacer/pidfromfd.go:46-49 | Anything but decimal digits after an optional sign is refused |
| `PidFd.ScanPast` | spacer/pidfromfd.go:41-45 | Lines without the prefix do not matter |
| `PidFd.FdInfoRoundTrip` | spacer/pidfromfd.go:41-52 | Whatever lines are around it, the number in a line `Pid:`, tab, number is found, and the scan fails exactly if it is no 32-bit number |

## Left out

- Execution.Run: callbacks that change namespaces, locks or descriptors other than through the API, and cleanups in
  another order than last in, first out, are outside the documented use.
- Execution.GoSeparate: does not say that the pickups are closed only once; they are closed by the worker and again by
  the scheduled closes.
- Execution.CleanUp: a scheduled close whose number has been reused in between closes the wrong descriptor; the model
  says which numbers are closed.
- Transient.NewTransient: if switching back fails, the new descriptor stays open; that is the code's behaviour.
- Api.RoomsResponse.DecodeFds: of two descriptors of one type the earlier one stays open and in no field, as in the
  code; a service never sends two.
- Tree.Subspace: says nothing of a call whose response was lost, could not be encoded or could not be decoded:
  descriptors that were sent along with it may then stay open.
- Clients.SubspaceCall: a connection that a failed call leaves open is closed when the garbage collector finds it, which
  is not modelled; nor is what is left of a response that cannot be decoded.
- Mounts.HostChangesExactly: mounts that user code makes in the original namespace itself, without leaving it, are not
  part of a run; they are no matter of this code.
- GobMsg.Decoder.Fill: positions in the buffer are counted in items, not in bytes.
- Subspaces.Subspace: which numbers and namespaces the kernel gives a child is a parameter; the reason in an error ends
  before the system's own text.
- Rendezvous.NoDeadlock: a callback ends or panics; one that ends its goroutine with `runtime.Goexit` is not covered.
- PidFd.PIDfromPIDFd: reading the link and the file are parameters.
- System calls, gob's bytes, starting processes and waiting for them: abstract, with every failure possible.
- Uid and gid mappings, pid 1 semantics, and remounting procfs in the service program: kernel policy that this code
  does not decide.
- Ginkgo and Gomega reporting, slog records, pet names, options, and building the service binary: reporting only.
- `netns`, `mntns.Execute`, `mntns/space.go`, `spacenames.go` and `Client.NewTransient`: one-line wrappers and tables.
- Concurrent use of one client: excluded by its documentation.
