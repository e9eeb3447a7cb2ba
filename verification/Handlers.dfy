/** The handlers as the program runs them: step by step on the entity table, with the
  * database as a map.  Each is proved to do what Controller says of it. */
module Handlers {
  import opened EntityStore
  import opened Controller
  import opened EntityTable

  class Server {
    const table: Table
    var tags: seq<int>
    var db: map<int, int>

    ghost function State(): Ctl
      reads this, table, table.slots
    {
      Ctl(table.W(), tags, db)
    }

    ghost predicate Valid()
      reads this, table, table.slots, table.next, table.prev
    {
      table.Valid() && |tags| == MAX
    }

    constructor (rows: map<int, int>)
      ensures Valid() && fresh(table) && fresh(table.slots) && fresh(table.next) && fresh(table.prev)
      ensures State() == Ctl(EmptyStore(), seq(MAX, i => 0), rows)
    {
      table := new Table();
      tags := seq(MAX, i => 0);
      db := rows;
    }

    /** db_instance_update_status: select the row, then update it unless it is deleted. */
    method UpdateRow(d: int, status: int, dbOk: bool) returns (failed: bool)
      modifies this`db
      ensures failed == !dbOk
      ensures db == if dbOk then DbUpdate(old(db), d, status) else old(db)
    {
      if !dbOk {
        return true;
      }
      if d in db && status != DOMAIN_UNKNOWN && db[d] != status {
        if db[d] != DOMAIN_DELETE {
          db := db[d := status];
        }
      }
      return false;
    }

    lemma {:induction false} StateShape()
      requires Valid()
      ensures Shape(State().w)
    {
    }

    /** eh_process_osm_report */
    method OsmReport(id: nat, status: int, dbOk: bool) returns (code: int)
      requires Valid() && id < MAX
      modifies this, table, table.slots, table.next, table.prev
      ensures Valid() && Shape(old(State()).w) && State() == OnReport(old(State()), id, status, dbOk)
    {
      hide EntityTable.Rep, Shape, Update, DbUpdate;
      StateShape();
      var dbId := table.slots[id].dbId;
      if status == APP_RUNNING {
        if !(table.slots[id].status >= SERVING) {
          var failed := UpdateRow(dbId, DOMAIN_SERVING, dbOk);
          if failed {
            return -1;
          }
          var _ := table.Update(id, -1, SERVING);
        }
      } else if status > APP_RUNNING && status <= APP_FAILED {
        if !(table.slots[id].status >= RUNNING) || table.slots[id].status >= SERVING {
          var failed := UpdateRow(dbId, DOMAIN_RUNNING, dbOk);
          if failed {
            return -1;
          }
          var _ := table.Update(id, -1, RUNNING);
        }
      }
      return 0;
    }

    /** eh_process_osm_register */
    method OsmRegister(id: nat, got: nat, tag: int, status: int, sent: bool, dbOk: bool) returns (code: int)
      requires Valid() && id < MAX
      modifies this, table, table.slots, table.next, table.prev
      ensures Valid() && Shape(old(State()).w)
      ensures State() == OnRegister(old(State()), id, got, tag, status, sent, dbOk)
    {
      hide EntityTable.Rep, Shape, Update, DbUpdate;
      StateShape();
      if table.slots[id].status >= REGISTERED {
        return -1;
      }
      if !table.slots[id].data {
        return -1;
      }
      if got >= 1 {
        tags := tags[id := tag];
      }
      if got < 3 {
        return 1;
      }
      var success := true;
      if !(table.slots[id].status >= AUTHENTICATED) {
        success := false;
      } else if status != OSM_UNREGISTERED {
        success := false;
      }
      if !sent {
        return -1;
      }
      if !success {
        return 0;
      }
      var failed := UpdateRow(tag, DOMAIN_RUNNING, dbOk);
      if failed {
        return -1;
      }
      var _ := table.Update(id, tag, REGISTERED);
      return 0;
    }

    /** eh_process_osm_auth and eh_process_node_auth on a reply; verdict is what
      * lyauth_verify returns. */
    method OsmAuthReply(id: nat, verdict: int) returns (code: int)
      requires Valid() && id < MAX
      modifies this, table, table.slots, table.next, table.prev
      ensures Valid() && Shape(old(State()).w) && State() == OnAuthReply(old(State()), id, verdict > 0)
    {
      hide EntityTable.Rep, Shape, Update;
      StateShape();
      if verdict < 0 {
        return -1;
      }
      if verdict == 0 {
        return 1;
      }
      if !(table.slots[id].status >= AUTHENTICATED) {
        var _ := table.Update(id, -1, AUTHENTICATED);
      }
      return 0;
    }

    /** eh_process_osm_auth on a request. */
    method OsmAuthRequest(id: nat, tag: int, found: Found, answered: bool, prepared: bool,
                          sent: bool) returns (code: int)
      requires Valid() && id < MAX
      modifies this, table, table.slots, table.next, table.prev
      ensures Valid() && Shape(old(State()).w)
      ensures State() == OnAuthRequest(old(State()), id, tag, found, answered, prepared, sent)
    {
      hide EntityTable.Rep, Shape, Update;
      StateShape();
      if !table.slots[id].data {
        return -1;
      }
      if !table.slots[id].auth.secret {
        if found == NoRow {
          return -1;
        }
        table.SetAuth(id, table.slots[id].auth.(secret := found == HasKey));
        tags := tags[id := tag];
      }
      if !answered {
        return -1;
      }
      table.SetAuth(id, table.slots[id].auth.(challenge := prepared));
      if !prepared || !sent {
        return -1;
      }
      StateShape();
      var _ := table.Update(id, tags[id], ONLINE);
      return 0;
    }

    /** __instance_info_update */
    method InstanceInfoUpdate(instance: int, status: int, dbOk: bool) returns (code: int)
      requires Valid()
      modifies this`db
      ensures Valid() && Shape(old(State()).w) && State() == OnInstanceInfo(old(State()), instance, status, dbOk)
    {
      hide EntityTable.Rep, Shape, DbUpdate;
      StateShape();
      var ent := table.FindByDb(Osm, instance);
      var s := status;
      if 0 <= ent < MAX && table.slots[ent].status >= REGISTERED {
        s := DOMAIN_UNKNOWN;
      }
      var failed := UpdateRow(instance, s, dbOk);
      return if failed then -1 else 0;
    }

    /** The release when an instance was stopped. */
    method InstanceStopped(instance: int)
      requires Valid()
      modifies this, table, table.slots, table.next, table.prev
      ensures Valid() && Shape(old(State()).w) && State() == OnStopped(old(State()), instance)
    {
      hide EntityTable.Rep, Shape;
      StateShape();
      var ent := table.FindByDb(Osm, instance);
      if ent > 0 {
        var _ := table.Release(ent);
      }
    }

    /** The end of a connection. */
    method Disconnected(id: nat, dbOk: bool)
      requires Valid() && id < MAX
      modifies this, table, table.slots, table.next, table.prev
      ensures Valid() && Shape(old(State()).w) && State() == OnDisconnect(old(State()), id, dbOk)
    {
      hide EntityTable.Rep, Shape, DbUpdate;
      StateShape();
      if table.slots[id].kind.Osm? {
        var _ := UpdateRow(table.slots[id].dbId, DOMAIN_NEED_QUERY, dbOk);
      }
      var _ := table.Release(id);
    }
  }
}
