# controller: remote key-value exposure and a cooperative pause switch

This project models `controller/controller.py` in Dafny. That file lets a
long-running Python process expose a dict of its state to remote clients, and
lets a client pause and resume the host's main loop. The model has four modules:

- `Objects` (`objects.dfy`): what the Python `dict` does.
  - A dict value is `Dict(order, entries)`. `order` holds the keys in insertion
    order, which is the order `keys()` and iteration report. `entries` maps each
    key to its value. `WellFormed` says `order` is duplicate-free and lists
    exactly the keys of `entries`.
  - `Lookup` is `d[k]`; an absent key gives `KeyError`. `Insert` is `d[k] = v`.
    `Size` is `len(d)`.
  - `ApplySets` is a run of successive assignments. Lemmas about it give
    length accounting and last-write-wins.
  - `SharedDict` is the dict object itself. Host code and every service
    instance hold the same reference to it.
- `Services` (`services.dfy`): `provide_objects`, the configuration part of
  `launch`, and the `Service` class with `get`, `set`, `len` and `keys`.
- `PauseControl` (`pause_control.dfy`): the `Controller` class. It has a
  `paused` flag, `pause`, `resume`, and the checkpoint `handle`.
- `Connections` (`connections.dfy`): `ConnectionWrapper`. Item access forwards to
  the service, and attribute access is routed on the `_` prefix.

Values stored in the dict are opaque: every module is generic in the value type `V`.

The RPC connection is replaced by direct references:
- a service instance holds the `SharedDict`;
- a wrapper holds the service instance that `conn.root` would reach.

The cross-thread wait in `handle` is sequential in the model.
- `Handle(resumeAfter)` is told how many one-second sleeps pass before another
  thread's `resume` is seen.
- The loop performs that `resume` at that tick.
- `resumeAfter = 0` means the resume landed after `handle` first tested the flag
  and before the loop's first poll.
- The log is returned as the sequence of lines the call emits.

## Model

| member | source | states |
|---|---|---|
| Objects.Lookup | controller/controller.py:23-24 | `d[k]` succeeds exactly when `k` is present and then gives its value; an absent key gives `KeyError(k)`, never a default. `Service.Get` is specified against this definition |
| Objects.Size | controller/controller.py:29-30 | `len(d)` is the number of entries, and equals the number of keys `keys()` lists. `Service.Len` is specified against this definition |
| Objects.SharedDict.constructor | controller/controller.py:13-16 | the dict object that `provide_objects` attaches holds the given well-formed contents; host code and every service instance share this one reference |
| Objects.ApplySets | controller/controller.py:26-27 | a run of successive `exposed_set` calls leaves a well-formed dict; the lemmas below state its keys, length and values |
| Objects.Insert | controller/controller.py:26-27 | after `d[k] = v`: `k` reads back as exactly `v` and every other key reads as before; the keys gain `k` and lose none; the length grows by one exactly when `k` was new; an existing key keeps its position and a new key goes last; the dict stays well formed |
| Objects.SizeIsKeyCount | controller/controller.py:29-33 | a well-formed dict has as many entries as `keys()` reports keys |
| Objects.DistinctCardinality | controller/controller.py:29-33 | a duplicate-free key sequence has as many elements as its set of keys (the fact behind `len == len(keys())`) |
| Objects.ApplySetsKeys | controller/controller.py:26-30 | after any run of `set` calls the keys are the old ones plus every key assigned; no operation removes a key |
| Objects.LengthCountsDistinctKeys | controller/controller.py:26-30 | starting from an empty dict, `len` is the number of distinct keys ever set |
| Objects.ApplySetsUnassigned | controller/controller.py:23-27 | a key that no `set` of a run names keeps its old value, or stays absent and still fails `get` |
| Objects.ApplySetsLastWrite | controller/controller.py:23-27 | after a run of `set` calls, a key holds the value of the last `set` to it |
| Services.ProvideObjects | controller/controller.py:13-19 | the service class carries the given dict; its alias list is `[name]` exactly when a name is given and is left unset otherwise |
| Services.Launch | controller/controller.py:76-79 | `launch` passes its name to `provide_objects` unchanged: the alias list is `[name]` for a given name and left unset for `name=None`; the name defaults to `"unnamed"` |
| Services.LaunchDefaultAlias | controller/controller.py:76-79 | without a name, `launch` registers the alias `"unnamed"` |
| Services.Service.constructor | controller/controller.py:13-19 | an instance of the provided class sees the class's dict and aliases, and the dict stays well formed |
| Services.Service.Get | controller/controller.py:23-24 | `get` succeeds exactly when the key is present and then returns its value; an absent key fails with `KeyError` for that key and never yields a default |
| Services.Service.Set | controller/controller.py:26-27 | `set` updates the shared dict as `Insert` describes, and nothing else changes |
| Services.Service.Len | controller/controller.py:29-30 | `len` is the number of entries, which equals the number of keys reported in order |
| Services.Service.Keys | controller/controller.py:32-33 | `keys` lists exactly the dict's keys, each once, in insertion order, and has as many elements as `len` |
| PauseControl.Controller.constructor | controller/controller.py:56-57 | a fresh controller is not paused |
| PauseControl.Controller.Pause | controller/controller.py:59-60 | after `pause` the controller is paused whatever the state before, so pausing twice is pausing once |
| PauseControl.Controller.Resume | controller/controller.py:72-73 | after `resume` the controller runs whatever the state before, so resuming a running controller changes nothing |
| PauseControl.Controller.Handle | controller/controller.py:62-70 | when not paused on entry: returns at once, logs nothing, sleeps zero times. When paused on entry: logs exactly `"pausing..."` then `"resuming"`, once each, after any number of sleeps, and returns only once the flag is clear |
| Connections.IsOwnAttribute | controller/controller.py:115-124 | a name is routed to the wrapper's own table exactly when `"_"` is a prefix of it |
| Connections.ConnectionWrapper.constructor | controller/controller.py:97-98 | a new wrapper is bound to the given root, has an empty attribute table of its own, and the root's dict stays well formed |
| Connections.ConnectionWrapper.GetItem | controller/controller.py:109-110 | `w[key]` is the remote `get`: the key's value, or `KeyError` when absent |
| Connections.ConnectionWrapper.SetItem | controller/controller.py:112-113 | `w[key] = v` is the remote `set` on the shared dict |
| Connections.ConnectionWrapper.Iter | controller/controller.py:103-104 | iterating the wrapper yields the remote keys, each once, in insertion order |
| Connections.ConnectionWrapper.GetAttr | controller/controller.py:115-118 | `w.name` reads the wrapper's own table for a `_` name (`KeyError` when absent) and the remote dict for any other name |
| Connections.ConnectionWrapper.SetAttr | controller/controller.py:120-124 | `w.name = v` writes only the wrapper's own table for a `_` name, leaving the dict untouched; for any other name it writes only the dict, leaving the table untouched |
| Connections.AttributeRoundTrip | controller/controller.py:109-124 | for a name without the `_` prefix, `w.name = v` then `w["name"]` yields `v`, and every other key reads as before |
| Connections.OwnAttributeRoundTrip | controller/controller.py:115-124 | for a `_` name, `w._name = v` then `w._name` yields `v`, and the remote dict is unchanged |

`Services.LearningRateScenario` and `PauseControl.PauseResumeScenario` are client
methods that replay two worked scenarios with assertions.
- The dict scenario: read `learning_rate`, overwrite it, read it back, count the
  entries, and look up a missing key.
- The controller scenario: pause twice, checkpoint after three ticks, then resume.

## Left out

- The RPC transport is not modelled. This covers `rpyc.connect`, remote reference
  proxies, `ThreadedServer`, `auto_register`, and the host, port and
  `server_kwargs` options of `launch` and `connect`. These are a network library
  whose code is not part of this model; direct object references take their place.
- `launch_server`, `launch_thread` and the daemon thread that `launch` starts are
  thread plumbing with no logic of their own.
- Real concurrency is not modelled. Interleavings of remote calls with each other
  and with the host loop are absent: every operation is one atomic step.
- PauseControl.Controller.Handle: covers only a resume that lands while `handle`
  waits. A pause that lands after `handle` has found the flag clear would make
  the real loop sleep without logging either line; that interleaving is not
  modelled.
- PauseControl.Controller.Handle: `resumeAfter` is a natural number, so a resume always arrives. The real `handle` has no timeout and blocks forever when nobody calls `resume`; that case has no counterpart in the model.
- The real-time length of `time.sleep(1)` is counted as abstract ticks.
- Logging configuration is not modelled. The two `handle` messages are returned
  as the emitted lines.
- `ConnectionWrapper.__len__` calls `len()` on the integer that the remote `len`
  returns, which raises in Python. It is not modelled as a length.
- `exposes_values` is misspelled, so rpyc does not expose it remotely. It is not
  modelled.
- The stray `__set__` method of `ConnectionWrapper` is a descriptor hook that
  this usage never triggers. It is not modelled.
- The `__main__` demonstration loop is not modelled beyond the two scenario methods.
- Connections.ConnectionWrapper.GetAttr: covers only names that the class does
  not itself define. Python consults `__getattr__` only after ordinary lookup
  fails, so names such as `keys`, `get` or `items`, which the `Mapping` base
  provides, never reach the routing. It also does not model `w._conn`: Python
  finds the connection by ordinary lookup, while the model's table has no
  `_conn` entry, so GetAttr answers `KeyError("_conn")`.
- Connections.ConnectionWrapper.SetAttr: does not model `w._conn = x` replacing
  the connection. The model writes `_conn` into the wrapper's table and every
  later item access still goes to `root`.
- The `_conn` entry written into the wrapper's own table is held as the separate
  field `root`. The table models the wrapper's other `_` attributes.
- `keys()` returns a live dict view in Python. The model returns the key
  sequence as it stands at the call.
- The `is True` tests in `handle` are modelled on a boolean flag.
  `pause` and `resume` only ever store booleans there.
- Values are opaque; for example, the float `0.1` in the demonstration is just a
  value of type `V`.
