/** The notification registry of the bridge: the global tag-to-notification
    bidict, the notifications it points to, and the two callbacks that change
    them, `on_message` and `on_close`. */
module Registry {
  import opened Payload
  import opened Bidict

  /** A notification on the display surface (a `Notify.Notification`). `Null`
      in an attribute means the surface's own default; `shown` counts the
      calls to `show()`. */
  class Notification {
    var summary: Value
    var body: Value
    var icon: Value
    var category: Value
    var timeout: Value
    var urgency: Value
    var shown: nat

    /** `Notify.Notification.new(summary, body, icon)`. */
    constructor (summary: Value, body: Value, icon: Value)
      ensures this.summary == summary && this.body == body && this.icon == icon
      ensures category == Null && timeout == Null && urgency == Null && shown == 0
    {
      this.summary, this.body, this.icon := summary, body, icon;
      category, timeout, urgency, shown := Null, Null, Null, 0;
    }

    /** `n.update(summary, body, icon)`: the other attributes are kept. */
    method Update(summary: Value, body: Value, icon: Value)
      modifies this`summary, this`body, this`icon
      ensures this.summary == summary && this.body == body && this.icon == icon
    {
      this.summary, this.body, this.icon := summary, body, icon;
    }

    method SetCategory(category: Value)
      modifies this`category
      ensures this.category == category
    {
      this.category := category;
    }

    method SetTimeout(timeout: Value)
      modifies this`timeout
      ensures this.timeout == timeout
    {
      this.timeout := timeout;
    }

    method SetUrgency(urgency: Value)
      modifies this`urgency
      ensures this.urgency == urgency
    {
      this.urgency := urgency;
    }

    method Show()
      modifies this`shown
      ensures shown == old(shown) + 1
    {
      shown := shown + 1;
    }
  }

  /** An optional attribute of a message applied over a notification's
      previous value: `None` leaves the previous value alone. */
  function Overlay(previous: Value, given: Value): Value {
    if given != Null then given else previous
  }

  datatype CloseOutcome = Removed | KeyError

  /** `notification_map` (forward: tag to notification, inverse: notification
      to tag) together with the configured icon. Tags are held under their
      `DictKey`, as a Python dict compares them. */
  class Registry {
    var forward: map<Value, Notification>
    var inverse: map<Notification, Value>
    const icon: Value

    ghost predicate Valid()
      reads this
    {
      && Mirrors(forward, inverse)
      && Null !in forward
      && (forall k | k in forward :: DictKey(k) == k)
    }

    /** The empty `bidict()` created at start-up; `icon` comes from the configuration. */
    constructor (icon: Value)
      ensures Valid() && forward == map[] && inverse == map[] && this.icon == icon
    {
      forward, inverse := map[], map[];
      this.icon := icon;
    }

    /** `on_message`: decode the payload; a payload that is not dropped is
        handed to `Present`. Returns the notification shown, or `null` for a
        payload that is dropped. */
    method OnMessage(p: Parsed) returns (n: Notification?)
      requires Valid()
      modifies this`forward, this`inverse, forward.Values
      ensures Valid()
      // A dropped payload changes nothing and shows nothing.
      ensures Decode(p).Dropped? ==>
        n == null && forward == old(forward) && inverse == old(inverse)
      ensures Decode(p).Accepted? ==> n != null && Presented(Decode(p).request, n)
      // No registered notification other than the one shown is touched.
      ensures forall h | h in old(forward.Values) && h != n :: unchanged(h)
    {
      n := null;
      if p.Invalid? {
        return;
      }
      var payload := SetDefaults(p.fields);
      var decoded := Select(payload);
      assert decoded == Decode(p);
      if decoded.Dropped? {
        return;
      }
      n := Present(decoded.request);
    }

    /** What `Present` does with an accepted request `r`, stated over the
        states before and after. */
    twostate predicate Presented(r: Request, new n: Notification)
      reads this, n
    {
      // It ends in exactly one show() of the notification it chose.
      && n.shown == (if fresh(n) then 0 else old(n.shown)) + 1
      && n.summary == r.summary && n.body == r.body && n.icon == icon
      // Untagged: a fresh notification that never enters the map.
      && (r.tag == Null ==>
            fresh(n) && forward == old(forward) && inverse == old(inverse))
      // Tagged with an unseen tag: exactly one new entry, for a fresh notification.
      && (r.tag != Null && DictKey(r.tag) !in old(forward) ==>
            fresh(n) &&
            forward == old(forward)[DictKey(r.tag) := n] &&
            inverse == old(inverse)[n := DictKey(r.tag)])
      // Tagged with a known tag: the mapped notification is updated, the map is not.
      && (r.tag != Null && DictKey(r.tag) in old(forward) ==>
            n == old(forward)[DictKey(r.tag)] &&
            forward == old(forward) && inverse == old(inverse))
      // Optional attributes: set when present, otherwise the previous value
      // (the surface default for a fresh notification) stays.
      && (fresh(n) ==>
            n.category == r.category && n.timeout == r.timeout && n.urgency == r.urgency)
      && (!fresh(n) ==>
            && n.category == Overlay(old(n.category), r.category)
            && n.timeout == Overlay(old(n.timeout), r.timeout)
            && n.urgency == Overlay(old(n.urgency), r.urgency))
    }

    /** The tagged and untagged paths of `on_message` and the optional
        attributes, for a request that has something to show. */
    method Present(r: Request) returns (n: Notification)
      requires Valid()
      modifies this`forward, this`inverse, forward.Values
      ensures Valid()
      ensures Presented(r, n)
      // No registered notification other than the one chosen is touched.
      ensures forall h | h in old(forward.Values) && h != n :: unchanged(h)
    {
      if r.tag != Null {
        var key := DictKey(r.tag);
        if key in forward {
          n := forward[key];
          n.Update(r.summary, r.body, icon);
        } else {
          n := new Notification(r.summary, r.body, icon);
          PutKeepsMirror(forward, inverse, key, n);
          forward := forward[key := n];
          inverse := inverse[n := key];
        }
      } else {
        n := new Notification(r.summary, r.body, icon);
      }
      if r.category != Null {
        n.SetCategory(r.category);
      }
      if r.timeout != Null {
        n.SetTimeout(r.timeout);
      }
      if r.urgency != Null {
        n.SetUrgency(r.urgency);
      }
      n.Show();
    }

    /** `on_close`: `del notification_map.inverse[n]`. Removes exactly the
        entry whose notification is `n`; for a notification that is not in the
        map it raises `KeyError` and changes nothing. */
    method OnClose(n: Notification) returns (outcome: CloseOutcome)
      requires Valid()
      modifies this`forward, this`inverse
      ensures Valid()
      ensures outcome == KeyError <==> n !in old(inverse)
      ensures outcome == KeyError ==> forward == old(forward) && inverse == old(inverse)
      ensures outcome == Removed ==>
        forward == old(forward) - {old(inverse)[n]} && inverse == old(inverse) - {n} &&
        |forward| == |old(forward)| - 1
      ensures forall t :: t in forward <==> t in old(forward) && old(forward)[t] != n
    {
      if n !in inverse {
        MirrorIsBijection(forward, inverse);
        return KeyError;
      }
      DeleteInverseKeepsMirror(forward, inverse, n);
      forward := forward - {inverse[n]};
      inverse := inverse - {n};
      outcome := Removed;
    }
  }

  /** Two messages whose tags are the same dict key, on any registry: the
      second updates the notification the first one chose, its summary and
      body win, and the map gains at most the one entry for that tag. A
      publisher that sends one message twice is the case `p == q`. */
  method SameTagSharesNotification(registry: Registry, p: Parsed, q: Parsed)
    returns (first: Notification?, second: Notification?)
    requires registry.Valid()
    requires Decode(p).Accepted? && Decode(q).Accepted? && Decode(p).request.tag != Null
    requires DictKey(Decode(p).request.tag) == DictKey(Decode(q).request.tag)
    modifies registry`forward, registry`inverse, registry.forward.Values
    ensures registry.Valid()
    ensures first != null && first == second
    ensures second.summary == Decode(q).request.summary && second.body == Decode(q).request.body
    ensures DictKey(Decode(p).request.tag) in registry.forward
    ensures registry.forward[DictKey(Decode(p).request.tag)] == second
    ensures registry.forward.Keys == old(registry.forward.Keys) + {DictKey(Decode(p).request.tag)}
  {
    first := registry.OnMessage(p);
    second := registry.OnMessage(q);
  }

  /** An example of update in place, on an empty registry: two messages with
      the tag "cpu" give one notification, shown twice, whose body is the
      second message. */
  method SameTagUpdatesInPlace() returns (first: Notification?, second: Notification?, tags: nat)
    ensures first != null && first == second
    ensures second.summary == Text("CPU") && second.body == Text("cooling") && second.shown == 2
    ensures tags == 1
  {
    var registry := new Registry(Null);
    var hot := map["title" := Text("CPU"), "message" := Text("hot"), "tag" := Text("cpu")];
    var cooling := map["title" := Text("CPU"), "message" := Text("cooling"), "tag" := Text("cpu")];
    assert Get(hot, "title") == Text("CPU") && Get(hot, "message") == Text("hot");
    assert Get(cooling, "title") == Text("CPU") && Get(cooling, "message") == Text("cooling");
    assert Get(hot, "tag") == Text("cpu") && Get(cooling, "tag") == Text("cpu");
    first := registry.OnMessage(Object(hot));
    second := registry.OnMessage(Object(cooling));
    tags := |registry.forward|;
  }

  /** An example of an untagged message, on an empty registry: "disk full"
      without title or tag gives one notification whose summary is the
      message, which has no body and which leaves the map empty. */
  method UntaggedMessage() returns (n: Notification?, tags: nat)
    ensures n != null && n.summary == Text("disk full") && n.body == Null && n.shown == 1
    ensures tags == 0
  {
    var registry := new Registry(Null);
    var payload := map["message" := Text("disk full")];
    assert Get(payload, "message") == Text("disk full") && Get(payload, "title") == Null;
    assert Get(payload, "tag") == Null;
    n := registry.OnMessage(Object(payload));
    tags := |registry.forward|;
  }
}
