/** The largest key of an ordered map. */
module Keys {

  ghost predicate IsMax(k: nat, keys: set<nat>) {
    k in keys && forall j :: j in keys ==> j <= k
  }

  lemma {:induction false} MaxExists(keys: set<nat>)
    requires keys != {}
    ensures exists k :: IsMax(k, keys)
    decreases |keys|
  {
    var k :| k in keys;
    var rest := keys - {k};
    if rest == {} {
      assert keys == {k};
      assert IsMax(k, keys);
    } else {
      MaxExists(rest);
      var j :| IsMax(j, rest);
      assert keys == rest + {k};
      assert IsMax(if j < k then k else j, keys);
    }
  }

  function MaxKey(keys: set<nat>): (k: nat)
    requires keys != {}
    ensures IsMax(k, keys)
  {
    MaxExists(keys);
    var k :| k in keys && forall j :: j in keys ==> j <= k;
    k
  }
}
