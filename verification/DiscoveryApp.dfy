/** The host's session object: it reads the records of each payload and updates its table in place. */
module DiscoveryApp {
  import opened Words
  import opened IdvRecords
  import Discovery
  import opened DiscoveryHost

  class App {
    var objects: map<u8, Object>
    var cId: u8
    var cPid: u8
    var hasId: bool
    var hasPid: bool
    var cMark: u8

    ghost function State(): Handler
      reads this
    {
      Handler(objects, cId, cPid, hasId, hasPid, cMark)
    }

    constructor ()
      ensures State() == Handler(map[], 0, 0, false, false, 0)
    {
      objects, cId, cPid, hasId, hasPid, cMark := map[], 0, 0, false, false, 0;
    }

    method OnMark(marker: u8, entry: bool)
      modifies this
      ensures State() == DiscoveryHost.OnMark(old(State()), marker, entry)
    {
      if marker == Discovery.DISCOVER_REP { return; }
      if entry { cMark := marker; }
      hasId, hasPid := false, false;
    }

    /** The object of identifier `id`, created empty if it is not there. */
    method Touch(id: u8) returns (o: Object)
      ensures o == ObjectAt(State(), id)
    {
      o := if id in objects then objects[id] else Object(0, 0, map[]);
    }

    method OnField(r: Reader)
      requires r.Valid() && r.found && r.id != Discovery.MARKER
      modifies this
      ensures State() == DiscoveryHost.OnField(old(State()), r.Current())
    {
      match r.id
      case 0 =>
        hasId := true;
        cId := r.AsByte(cId);
        var o := Touch(cId);
        objects := objects[cId := WithField(o, Discovery.ID, [cId]).(marker := cMark)];
      case 1 =>
        hasPid := true;
        cPid := r.AsByte(cPid);
        if hasId {
          var o := Touch(cId);
          objects := objects[cId := WithField(o, Discovery.PARENT_ID, [cPid]).(marker := cMark, pid := cPid)];
        }
      case _ =>
        if hasId {
          var o := Touch(cId);
          var value := r.AsBinary();
          objects := objects[cId := WithField(o, r.id, value)];
        }
    }

    /** Handles the record the reader is at. */
    method Handle(r: Reader)
      requires r.Valid() && r.found
      modifies this
      ensures State() == OnRecord(old(State()), r.Current())
    {
      if r.id == Discovery.MARKER {
        var marker := r.AsByte(0xFF);
        OnMark(marker % 0x80, marker < 0x80);
      } else {
        OnField(r);
      }
    }

    /** Handles every complete record of a payload. */
    method Process(data: array<u8>)
      requires data.Length <= UINT16_MAX
      modifies this
      ensures State() == OnRecords(old(State()), old(Parse(data[..])))
    {
      hide OnRecord, Parse, Reader.Rest, Reader.Current, Reader.Valid;
      var reader := new Reader(data);
      ghost var all, k := Parse(data[..]), 0;
      var more := reader.Next();
      assert all[..0] == [];
      while more
        invariant reader.Valid() && reader.buf == data && fresh(reader) && reader.found == more
        invariant k <= |all| && (more <==> k < |all|)
        invariant more ==> reader.Current() == all[k] && reader.Rest() == all[k + 1..]
        invariant State() == OnRecords(old(State()), all[..k])
        decreases |all| - k
      {
        Handle(reader);
        assert all[..k + 1][..k] == all[..k];
        k := k + 1;
        more := reader.Next();
      }
      assert all[..k] == all;
    }
  }
}
