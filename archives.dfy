/**
 * A ZIP archive under construction, as both tools use it: a map from entry names
 * to contents, written one entry at a time, where writing an existing name
 * replaces that entry (`zip.file(name, data)`).
 */
module Archives {

  /** The archive after writing `entries` in order. */
  function Write<V>(entries: seq<(string, V)>): map<string, V>
  {
    if entries == [] then map[]
    else Write(entries[..|entries| - 1])[entries[|entries| - 1].0 := entries[|entries| - 1].1]
  }

  /** Writing one more entry updates the archive under that entry's name. */
  lemma WriteAppend<V>(entries: seq<(string, V)>, name: string, data: V)
    ensures Write(entries + [(name, data)]) == Write(entries)[name := data]
  {
    assert (entries + [(name, data)])[..|entries|] == entries;
  }

  function Names<V>(entries: seq<(string, V)>): set<string> {
    set i | 0 <= i < |entries| :: entries[i].0
  }

  /** The archive holds exactly the names written. */
  lemma {:induction false} WriteKeys<V>(entries: seq<(string, V)>)
    ensures Write(entries).Keys == Names(entries)
  {
    if entries != [] {
      var front := entries[..|entries| - 1];
      WriteKeys(front);
      assert Names(entries) == Names(front) + {entries[|entries| - 1].0} by {
        forall x | x in Names(entries)
          ensures x in Names(front) + {entries[|entries| - 1].0}
        {
          var i :| 0 <= i < |entries| && entries[i].0 == x;
          if i < |front| {
            assert front[i] == entries[i];
          }
        }
        forall x | x in Names(front)
          ensures x in Names(entries)
        {
          var i :| 0 <= i < |front| && front[i].0 == x;
          assert entries[i] == front[i];
        }
      }
    }
  }

  /** An entry survives, with its own data, when no later entry has its name. */
  lemma {:induction false} WriteLastWins<V>(entries: seq<(string, V)>, i: nat)
    requires i < |entries|
    requires forall j :: i < j < |entries| ==> entries[j].0 != entries[i].0
    ensures entries[i].0 in Write(entries) && Write(entries)[entries[i].0] == entries[i].1
  {
    var front := entries[..|entries| - 1];
    if i < |front| {
      assert front[i] == entries[i];
      WriteLastWins(front, i);
    }
  }

  /** Every entry of the archive holds the data of the last write under its name. */
  lemma {:induction false} WriteLatest<V>(entries: seq<(string, V)>, name: string)
    requires name in Write(entries)
    ensures exists i :: 0 <= i < |entries| && entries[i].0 == name && Write(entries)[name] == entries[i].1
              && forall j :: i < j < |entries| ==> entries[j].0 != name
  {
    var last := |entries| - 1;
    if entries[last].0 != name {
      var front := entries[..last];
      WriteLatest(front, name);
      var i :| 0 <= i < |front| && front[i].0 == name && Write(front)[name] == front[i].1
               && forall j :: i < j < |front| ==> front[j].0 != name;
      assert entries[i] == front[i];
      assert forall j :: i < j < |entries| ==> entries[j].0 != name by {
        forall j | i < j < |entries|
          ensures entries[j].0 != name
        {
          if j < last {
            assert entries[j] == front[j];
          }
        }
      }
    }
  }

  /** Never more entries than writes; exactly as many when all names differ. */
  lemma {:induction false} WriteSize<V>(entries: seq<(string, V)>)
    ensures |Write(entries)| <= |entries|
    ensures (forall i, j :: 0 <= i < j < |entries| ==> entries[i].0 != entries[j].0) ==> |Write(entries)| == |entries|
  {
    if entries != [] {
      var front := entries[..|entries| - 1];
      WriteSize(front);
      if forall i, j :: 0 <= i < j < |entries| ==> entries[i].0 != entries[j].0 {
        assert forall i, j :: 0 <= i < j < |front| ==> front[i].0 != front[j].0 by {
          forall i, j | 0 <= i < j < |front|
            ensures front[i].0 != front[j].0
          {
            assert front[i] == entries[i] && front[j] == entries[j];
          }
        }
        WriteKeys(front);
        assert forall i :: 0 <= i < |front| ==> front[i].0 != entries[|entries| - 1].0 by {
          forall i | 0 <= i < |front|
            ensures front[i].0 != entries[|entries| - 1].0
          {
            assert front[i] == entries[i];
          }
        }
        assert entries[|entries| - 1].0 !in Write(front);
      }
    }
  }
}
