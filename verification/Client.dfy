/** The client's mirror of the daemon (internal/client/client.go). */
module Clients {
  import opened Ipc
  import opened LogRings
  import opened Runtimes

  /** The client's stores: project states and log rings, all of one capacity. */
  datatype Mirror = Mirror(rt: Store, rings: Rings)

  const EMPTY_MIRROR: Mirror := Mirror(map[], map[])

  function WithProject(m: Mirror, p: ProjectSnap, n: nat): Mirror {
    Mirror(WithSet(m.rt, p.id, p.state, p.pid), if p.lines == [] then m.rings else Pushed(m.rings, p.id, p.lines, n))
  }

  function WithSnapshot(m: Mirror, projects: seq<ProjectSnap>, n: nat): Mirror {
    if projects == [] then m
    else WithProject(WithSnapshot(m, projects[..|projects| - 1], n), projects[|projects| - 1], n)
  }

  function WithEvent(m: Mirror, ev: Event, n: nat): Mirror {
    match ev
    case LogLine(id, _, _, _) => m.(rings := Pushed(m.rings, id, [LineOf(ev)], n))
    case _ => m.(rt := Applied(m.rt, ev))
  }

  /** The mirror after one envelope; a toast changes no store. */
  function Delivered(m: Mirror, env: Envelope, n: nat): Mirror {
    match env
    case Snapshot(projects) => WithSnapshot(m, projects, n)
    case EventMsg(ev) => WithEvent(m, ev, n)
    case Toast(_, _) => m
  }

  function DeliveredAll(m: Mirror, envs: seq<Envelope>, n: nat): Mirror {
    if envs == [] then m else Delivered(DeliveredAll(m, envs[..|envs| - 1], n), envs[|envs| - 1], n)
  }

  const NOTIF_CAPACITY: nat := 64

  class Client {
    const limit: int
    const rt: RuntimeStore
    var rings: Rings
    var notifications: seq<Envelope>

    ghost predicate Valid()
      reads this, rt
    {
      rt.Valid()
    }

    constructor (limit: int)
      ensures Valid() && this.limit == limit && fresh(rt) && View() == EMPTY_MIRROR
    {
      this.limit := limit;
      rt := new RuntimeStore();
      rings, notifications := map[], [];
    }

    function View(): Mirror
      reads this, rt
    {
      Mirror(rt.m, rings)
    }

    method ApplySnapshot(projects: seq<ProjectSnap>)
      requires Valid()
      modifies this, rt
      ensures Valid() && View() == WithSnapshot(old(View()), projects, Capacity(limit))
      ensures notifications == old(notifications)
    {
      ghost var before := View();
      assert projects[..|projects|] == projects;
      for k := 0 to |projects|
        invariant Valid() && View() == WithSnapshot(before, projects[..k], Capacity(limit))
        invariant notifications == old(notifications)
      {
        assert projects[..k + 1][..k] == projects[..k];
        var p := projects[k];
        rt.Set(p.id, p.state, p.pid);
        if |p.lines| > 0 {
          rings := Pushed(rings, p.id, p.lines, Capacity(limit));
        }
      }
    }

    method ApplyEvent(env: Envelope)
      requires Valid() && !env.Snapshot?
      modifies this, rt
      ensures Valid() && View() == Delivered(old(View()), env, Capacity(limit))
      ensures notifications
           == if env.Toast? && |old(notifications)| < NOTIF_CAPACITY then old(notifications) + [env] else old(notifications)
    {
      match env
      case Toast(_, _) =>
        Emit(env);
      case EventMsg(ev) =>
        match ev {
          case Started(_, _, _) => rt.Apply(ev);
          case Exited(_, _, _, _) => rt.Apply(ev);
          case StateChanged(_, _) => rt.Apply(ev);
          case Restarting(_, _, _) => rt.Apply(ev);
          case LogLine(id, bytes, isPartial, at) =>
            rings := Pushed(rings, id, [Line(bytes, isPartial, at)], Capacity(limit));
          case Other(_) =>
        }
    }

    /** Hands a notification to the UI without waiting for it: a full channel takes none. */
    method Emit(env: Envelope)
      modifies this`notifications
      ensures notifications
           == if |old(notifications)| < NOTIF_CAPACITY then old(notifications) + [env] else old(notifications)
    {
      if |notifications| < NOTIF_CAPACITY {
        notifications := notifications + [env];
      }
    }

    /** One round of the read loop. */
    method ReadOne(env: Envelope)
      requires Valid()
      modifies this, rt
      ensures Valid() && View() == Delivered(old(View()), env, Capacity(limit))
    {
      match env
      case Snapshot(projects) => ApplySnapshot(projects);
      case _ => ApplyEvent(env);
    }
  }
}
