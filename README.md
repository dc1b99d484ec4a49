# MQTT notification bridge: message handling and the tag registry

This project models the per-message logic of `mqtt-notify.py`, a bridge that subscribes to an
MQTT topic and shows each message as a desktop notification through libnotify.

- **Decoding** (`payload.dfy`, module `Payload`). A payload is either not valid JSON or a JSON
  object. The handler pads the object with `None` for the six recognised keys (`title`, `message`,
  `tag`, `category`, `timeout`, `urgency`) in a `setdefault` loop. It drops a message whose
  `message` is `None`. It shows `(title, message)` when there is a title and `(message, None)`
  otherwise. `SetDefaults` is the loop, `Select` is the drop rule and the summary/body choice, and
  `Decode` combines the two. `Encode` is a reference payload for a request; the round-trip lemmas
  use it to show that `Decode` keeps every recognised field.
- **The bidict** (`bidict.dfy`, module `Bidict`). `notification_map` is a `bidict`: a forward map
  and an inverse map kept as mirror images. The lemmas show that a mirrored pair is a bijection,
  that both directions have the same size, and that insert and `del inverse[v]` keep the pair
  mirrored.
- **The registry** (`registry.dfy`, module `Registry`). `Notification` is a libnotify
  notification: its summary, body, icon, category, timeout and urgency, plus the number of
  `show()` calls. `Registry` holds the global bidict, keyed by tag, and the configured icon.
  `OnMessage` is `on_message`. `Present` is its tagged/untagged path: it creates or updates the
  notification, applies the optional attributes that are present and calls `show()` once.
  `OnClose` is `on_close`. `Valid()` states that the two maps mirror each other, so no
  notification is bound to two tags, and that every tag is held under its dict key.

Tags are compared as Python compares dict keys. `True` and `1` are one key, and so are `False`
and `0`. `DictKey` normalises a tag this way before it is used as a key.

In these places the model follows the code, not what a reader might expect:
- An empty-string `message` is accepted and shown. Only `None` is dropped (`EmptyMessageIsShown`).
- `on_close` on a notification that is not in the map raises `KeyError`; it is not a silent
  no-op. `OnClose` returns `KeyError` and leaves the state unchanged.
- An unknown `urgency` is not rejected at decode time. The code converts it with
  `Notify.Urgency(...)` (mqtt-notify.py:87), which raises for an unknown value; the model passes
  it through unchanged, as the `Registry.Registry.Present` line under "## Left out" records.
- `on_close` is defined but never connected to any notification's `closed` signal. In the
  running program the map therefore only grows. `OnClose` models the function as written.

## Model

| member | source | states |
|---|---|---|
| `Payload.SetDefaults` | mqtt-notify.py:59-60 | the defaulted payload has exactly the original keys plus the six recognised ones; original values are kept and every added key is `None` |
| `Payload.Decode` | mqtt-notify.py:52-69 | an invalid parse is dropped as not JSON; a payload whose `message` is absent or `null` is dropped for having no message, and only then; an accepted payload has a non-null summary that is `(title, message)` when `title` is non-null and `(message, None)` otherwise, and carries `tag`, `category`, `timeout` and `urgency` as given |
| `Payload.IgnoresUnrecognisedKeys` | mqtt-notify.py:59-69 | two payloads that agree on the recognised keys, with absent and `null` treated alike, decode to the same outcome |
| `Payload.DecodeEncode` | mqtt-notify.py:61-69 | every request with a non-null summary decodes back from its reference payload |
| `Payload.EncodeRecoversPayload` | mqtt-notify.py:61-69 | an accepted payload agrees with the reference payload of its request on every recognised key, so decoding loses nothing |
| `Payload.EmptyMessageIsShown` | mqtt-notify.py:61-62 | an empty-string message is accepted with itself as summary and no body |
| `Payload.DictKey` | mqtt-notify.py:72 | the dict key of a tag is never a boolean, is equal to the tag under Python's `==`, and is `None` exactly when the tag is |
| `Payload.DictKeyIsEquality` | mqtt-notify.py:72 | two tags select the same map entry exactly when Python's `==` holds between them |
| `Bidict.MirrorIsBijection` | mqtt-notify.py:28 | a mirrored forward/inverse pair is injective, and the inverse's keys and values are the forward map's values and keys |
| `Bidict.MirrorSizes` | mqtt-notify.py:28 | the forward and inverse maps always hold the same number of entries |
| `Bidict.PutKeepsMirror` | mqtt-notify.py:77 | inserting an unused tag bound to an unused notification keeps the pair mirrored |
| `Bidict.DeleteInverseKeepsMirror` | mqtt-notify.py:46 | deleting a notification from the inverse removes exactly the one tag bound to it, keeps every other entry and keeps the pair mirrored |
| `Registry.Notification.constructor` | mqtt-notify.py:76 | a new notification has the given summary, body and icon, surface defaults for the rest, and has not been shown |
| `Registry.Notification.Update` | mqtt-notify.py:74 | an update replaces summary, body and icon and nothing else |
| `Registry.Registry.constructor` | mqtt-notify.py:28 | the registry starts empty and valid |
| `Registry.Registry.OnMessage` | mqtt-notify.py:48-89 | a dropped payload leaves both maps unchanged and shows nothing; an accepted one is presented as `Present` states; no other registered notification is touched; the maps stay mirrored |
| `Registry.Registry.Present` | mqtt-notify.py:71-89 | untagged: a fresh notification and an unchanged map; unseen tag: a fresh notification and exactly the new entry tag to notification in both directions; known tag: the mapped notification is updated in place and the map is unchanged; category, timeout and urgency are set only when non-null and otherwise keep their previous value; exactly one `show()`; other registered notifications untouched |
| `Registry.Registry.OnClose` | mqtt-notify.py:45-46 | raises `KeyError` exactly when the notification is not in the map, and then changes nothing; otherwise removes exactly the entry bound to it, so the map shrinks by one and the maps stay mirrored |
| `Registry.SameTagSharesNotification` | mqtt-notify.py:71-89 | on any valid registry, two accepted messages whose tags are the same dict key yield the same notification, which carries the second message's summary and body; the map then binds the tag to it and gains no other key (a message sent twice is one case) |
| `Registry.SameTagUpdatesInPlace` | mqtt-notify.py:71-89 | example on an empty registry: the two "cpu" messages give one notification, shown twice, whose body is the later message, and one map entry |
| `Registry.UntaggedMessage` | mqtt-notify.py:64-89 | example on an empty registry: the untitled, untagged "disk full" message gives one notification with the message as summary, no body, shown once, and no map entry |

## Left out

- MQTT transport: `on_connect` and its QoS 2 subscription, `on_disconnect`, client setup, TLS, `connect_async` and `loop_start`/`loop_stop`. These are network I/O in a foreign library.
- The GLib main loop, `Signaler` and the SIGINT/SIGTERM handlers. These are process plumbing. paho calls `on_message` on its own thread; the model treats each call as atomic.
- `password`: the Secret-service lookup that polls every 5 seconds without a bound. It is a foreign blocking call.
- `config` and the argparse handling. These are file I/O. The model takes the icon as a constructor argument. The configured `insecure` flag is not modelled; `bool()` of any non-empty string, `"false"` included, is true.
- UTF-8 decoding and `json.loads`. Only their outcome is modelled: invalid JSON, or an object whose members are `null`, booleans, integers or strings. A payload that is not UTF-8 raises out of the handler, and this is not modelled. A top-level JSON value that is not an object crashes at `setdefault`, and `Parsed` cannot express one. Floats, arrays and nested objects as member values are also not modelled. A float equal to an integer would share its dict key, and an array or object used as a tag raises `TypeError`.
- libnotify itself: `Notify.init`/`uninit`, and the type checks its bindings apply to the arguments of `new`, `update` and the setters. `Notification` records the values it is given.
- `Registry.Registry.Present`: passes `urgency` through as given, so it does not model the `Notify.Urgency(...)` conversion. In the source an unknown urgency raises `ValueError` after the notification has been created, inserted into the map and given its category and timeout, and before `show()`.
- `Registry.Registry.Present`: passes `timeout` through as given and does not model the bindings' rejection of a non-integer timeout.
