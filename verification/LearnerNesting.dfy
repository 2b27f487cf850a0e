/** `LearnerWithEnrollments.from_rows`: b2b_dashboard/learner_models.py. */
module LearnerNesting {
  import opened Common
  import opened LearnerRows

  datatype Learner = Learner(id: string, email: Option<string>, fullName: Option<string>, enrollments: seq<OutRow>)

  function Mine(rows: seq<OutRow>, id: string): seq<OutRow> {
    if rows == [] then []
    else if rows[0].learnerId == id then [rows[0]] + Mine(rows[1..], id)
    else Mine(rows[1..], id)
  }

  function Others(rows: seq<OutRow>, id: string): (r: seq<OutRow>)
    ensures |r| <= |rows|
  {
    if rows == [] then []
    else if rows[0].learnerId == id then Others(rows[1..], id)
    else [rows[0]] + Others(rows[1..], id)
  }

  /** A learner with these rows, named by the first. */
  function NewLearner(rows: seq<OutRow>): Learner
    requires rows != []
  {
    Learner(rows[0].learnerId, rows[0].email, rows[0].fullName, rows)
  }

  /** Learners in the order of their first rows, each with all its rows in order. */
  function Nest(rows: seq<OutRow>): seq<Learner>
    decreases |rows|
  {
    if rows == [] then []
    else
      var id := rows[0].learnerId;
      [NewLearner([rows[0]] + Mine(rows[1..], id))] + Nest(Others(rows[1..], id))
  }

  lemma {:induction false} NestBlock(block: seq<OutRow>, others: seq<OutRow>, id: string)
    requires block != []
    requires (forall row | row in block :: row.learnerId == id) && (forall row | row in others :: row.learnerId != id)
    ensures Nest(block + others) == [NewLearner(block)] + Nest(others)
  {
    assert block[0] in block && (block + others)[1..] == block[1..] + others && (block + others)[0] == block[0];
    SplitBlock(block[1..], others, id);
    assert [block[0]] + block[1..] == block;
  }

  lemma {:induction false} SplitBlock(block: seq<OutRow>, others: seq<OutRow>, id: string)
    requires (forall row | row in block :: row.learnerId == id) && (forall row | row in others :: row.learnerId != id)
    ensures Mine(block + others, id) == block && Others(block + others, id) == others
  {
    if block == [] {
      assert block + others == others;
      NoneAreMine(others, id);
    } else {
      assert block[0] in block && (block + others)[0] == block[0] && (block + others)[1..] == block[1..] + others;
      SplitBlock(block[1..], others, id);
      assert [block[0]] + block[1..] == block;
    }
  }

  lemma {:induction false} NoneAreMine(rows: seq<OutRow>, id: string)
    requires forall row | row in rows :: row.learnerId != id
    ensures Mine(rows, id) == [] && Others(rows, id) == rows
  {
    if rows != [] {
      assert rows[0] in rows;
      NoneAreMine(rows[1..], id);
      assert [rows[0]] + rows[1..] == rows;
    }
  }

  lemma {:induction false} MineSnoc(rows: seq<OutRow>, row: OutRow, id: string)
    ensures Mine(rows + [row], id) == Mine(rows, id) + if row.learnerId == id then [row] else []
  {
    if rows == [] {
      assert rows + [row] == [row] && [row][1..] == [];
    } else {
      MineSnoc(rows[1..], row, id);
      assert (rows + [row])[1..] == rows[1..] + [row];
    }
  }

  lemma {:induction false} OthersSnoc(rows: seq<OutRow>, row: OutRow, id: string)
    ensures Others(rows + [row], id) == Others(rows, id) + if row.learnerId == id then [] else [row]
  {
    if rows == [] {
      assert rows + [row] == [row] && [row][1..] == [];
    } else {
      OthersSnoc(rows[1..], row, id);
      assert (rows + [row])[0] == rows[0] && (rows + [row])[1..] == rows[1..] + [row];
      if rows[0].learnerId != id {
        assert Others(rows, id) == [rows[0]] + Others(rows[1..], id);
        assert Others(rows + [row], id) == [rows[0]] + Others(rows[1..] + [row], id);
      }
    }
  }

  /** One step of the loop on the listed learners. */
  function AddRow(learners: seq<Learner>, row: OutRow): seq<Learner> {
    if learners == [] then [NewLearner([row])]
    else if learners[0].id == row.learnerId
    then [learners[0].(enrollments := learners[0].enrollments + [row])] + learners[1..]
    else [learners[0]] + AddRow(learners[1..], row)
  }

  lemma {:induction false} NestSnoc(rows: seq<OutRow>, row: OutRow)
    ensures Nest(rows + [row]) == AddRow(Nest(rows), row)
    decreases |rows|
  {
    if rows == [] {
      assert rows + [row] == [row] && [row][1..] == [] && [row] + [] == [row];
    } else {
      var id := rows[0].learnerId;
      assert (rows + [row])[0] == rows[0] && (rows + [row])[1..] == rows[1..] + [row];
      MineSnoc(rows[1..], row, id);
      OthersSnoc(rows[1..], row, id);
      if row.learnerId == id {
        assert Others(rows[1..], id) + [] == Others(rows[1..], id);
        assert [rows[0]] + Mine(rows[1..] + [row], id) == [rows[0]] + Mine(rows[1..], id) + [row];
      } else {
        NestSnoc(Others(rows[1..], id), row);
        assert Mine(rows[1..], id) + [] == Mine(rows[1..], id);
      }
    }
  }

  /** The dictionary, listed in insertion order. */
  ghost predicate Lists(order: seq<string>, learners: map<string, Learner>, listed: seq<Learner>) {
    && |listed| == |order|
    && learners.Keys == (set id | id in order)
    && (forall i, j | 0 <= i < j < |order| :: order[i] != order[j])
    && (forall i | 0 <= i < |order| :: order[i] in learners && learners[order[i]] == listed[i] && listed[i].id == order[i])
  }

  lemma {:induction false} AddNewLearner(listed: seq<Learner>, row: OutRow)
    requires forall l | l in listed :: l.id != row.learnerId
    ensures AddRow(listed, row) == listed + [NewLearner([row])]
  {
    if listed != [] {
      assert listed[0] in listed;
      AddNewLearner(listed[1..], row);
    }
  }

  lemma {:induction false} AddToLearner(listed: seq<Learner>, row: OutRow, k: nat)
    requires k < |listed| && listed[k].id == row.learnerId
    requires forall i | 0 <= i < k :: listed[i].id != row.learnerId
    ensures AddRow(listed, row) == listed[k := listed[k].(enrollments := listed[k].enrollments + [row])]
  {
    if k > 0 {
      AddToLearner(listed[1..], row, k - 1);
    }
  }

  lemma ListsOneMore(order: seq<string>, learners: map<string, Learner>, listed: seq<Learner>, row: OutRow)
    requires Lists(order, learners, listed) && row.learnerId !in learners
    ensures Lists(order + [row.learnerId], learners[row.learnerId := NewLearner([row])], AddRow(listed, row))
  {
    forall l | l in listed
      ensures l.id != row.learnerId
    {
      var k :| 0 <= k < |listed| && listed[k] == l;
      assert order[k] in order;
    }
    AddNewLearner(listed, row);
    assert forall id :: id in order + [row.learnerId] <==> id in order || id == row.learnerId;
  }

  lemma ListsOneLonger(order: seq<string>, learners: map<string, Learner>, listed: seq<Learner>, row: OutRow)
    requires Lists(order, learners, listed) && row.learnerId in learners
    ensures var learner := learners[row.learnerId];
            Lists(order, learners[row.learnerId := learner.(enrollments := learner.enrollments + [row])], AddRow(listed, row))
  {
    var k :| 0 <= k < |order| && order[k] == row.learnerId;
    AddToLearner(listed, row, k);
  }

  /** The loop over a dictionary. Keying by learner means adjacency of a
      learner's rows does not matter. */
  method FromRows(rows: seq<OutRow>) returns (listed: seq<Learner>)
    ensures listed == Nest(rows)
  {
    var order: seq<string> := [];
    var learners: map<string, Learner> := map[];
    for i := 0 to |rows|
      invariant Lists(order, learners, Nest(rows[..i]))
    {
      var row := rows[i];
      var id := row.learnerId;
      assert rows[..i + 1] == rows[..i] + [row];
      NestSnoc(rows[..i], row);
      if id !in learners {
        ListsOneMore(order, learners, Nest(rows[..i]), row);
        order := order + [id];
        learners := learners[id := Learner(id, row.email, row.fullName, [row])];
      } else {
        ListsOneLonger(order, learners, Nest(rows[..i]), row);
        learners := learners[id := learners[id].(enrollments := learners[id].enrollments + [row])];
      }
    }
    assert rows[..|rows|] == rows;
    listed := [];
    for i := 0 to |order|
      invariant listed == Nest(rows)[..i]
    {
      listed := listed + [learners[order[i]]];
    }
  }
}
