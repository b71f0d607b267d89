/** ExchangeService over its repository of rates: reading prepends the base
    currency, writing replaces the stored rates inside one transaction. */
module Exchange {
  import opened Wrappers
  import opened Currencies
  import opened ExchangeRates

  /** The rows hold each currency at most once: the currency is the key. */
  predicate Keyed(rows: seq<ExchangeRate>) {
    forall i, j :: 0 <= i < j < |rows| ==> rows[i].currency != rows[j].currency
  }

  /** Position of the row for `c`, or -1. */
  function RowOf(rows: seq<ExchangeRate>, c: Currency): (k: int)
    ensures -1 <= k < |rows|
    ensures k == -1 <==> forall i :: 0 <= i < |rows| ==> rows[i].currency != c
    ensures k >= 0 ==> rows[k].currency == c
  {
    if rows == [] then -1
    else if rows[|rows| - 1].currency == c then |rows| - 1
    else RowOf(rows[..|rows| - 1], c)
  }

  /** save(e) on a table keyed by currency: the row for e's currency takes
      e's value where it stands; a new currency is added at the end. */
  function Saved(rows: seq<ExchangeRate>, e: ExchangeRate): seq<ExchangeRate> {
    var k := RowOf(rows, e.currency);
    if k < 0 then rows + [e] else rows[k := e]
  }

  /** save keeps the table keyed, stores e, and keeps exactly the rows of the
      other currencies. */
  lemma SavedRows(rows: seq<ExchangeRate>, e: ExchangeRate)
    requires Keyed(rows)
    ensures var r := Saved(rows, e);
            Keyed(r) && e in r
            && (forall x :: x in rows && x.currency != e.currency ==> x in r)
            && (forall x :: x in r ==> x == e || (x in rows && x.currency != e.currency))
  {
    var k := RowOf(rows, e.currency);
    if k >= 0 {
      var r := rows[k := e];
      assert r[k] == e;
      forall x | x in rows && x.currency != e.currency
        ensures x in r
      {
        var j :| 0 <= j < |rows| && rows[j] == x;
        assert r[j] == x;
      }
    }
  }

  /** saveAll: save, entity after entity. */
  function SavedAll(rows: seq<ExchangeRate>, ents: seq<ExchangeRate>): (r: seq<ExchangeRate>)
    requires Keyed(rows)
    ensures Keyed(r)
    decreases |ents|
  {
    if ents == [] then rows
    else
      SavedRows(rows, ents[0]);
      SavedAll(Saved(rows, ents[0]), ents[1..])
  }

  /** Saving entities of distinct currencies into an empty table stores them
      as they are, in their order. */
  lemma {:induction false} SavedAllDistinct(rows: seq<ExchangeRate>, ents: seq<ExchangeRate>)
    requires Keyed(rows) && Keyed(ents)
    requires forall x, y :: x in rows && y in ents ==> x.currency != y.currency
    ensures SavedAll(rows, ents) == rows + ents
    decreases |ents|
  {
    if ents != [] {
      FirstSaveAppends(rows, ents);
      SavedAllDistinct(rows + [ents[0]], ents[1..]);
      assert rows + [ents[0]] + ents[1..] == rows + ents;
    }
  }

  /** The first of several entities of new, distinct currencies is
      appended, and the rest are still new and distinct. */
  lemma FirstSaveAppends(rows: seq<ExchangeRate>, ents: seq<ExchangeRate>)
    requires Keyed(rows) && Keyed(ents) && ents != []
    requires forall x, y :: x in rows && y in ents ==> x.currency != y.currency
    ensures Saved(rows, ents[0]) == rows + [ents[0]]
    ensures Keyed(rows + [ents[0]]) && Keyed(ents[1..])
    ensures forall x, y :: x in rows + [ents[0]] && y in ents[1..] ==> x.currency != y.currency
  {
    var e, rest := ents[0], ents[1..];
    var r1 := rows + [e];
    assert e in ents;
    assert RowOf(rows, e.currency) == -1 by {
      forall i | 0 <= i < |rows|
        ensures rows[i].currency != e.currency
      {
        assert rows[i] in rows;
      }
    }
    assert Keyed(r1) by {
      forall i, j | 0 <= i < j < |r1|
        ensures r1[i].currency != r1[j].currency
      {
        if j == |rows| {
          assert r1[i] == rows[i] && rows[i] in rows;
        }
      }
    }
    assert Keyed(rest) by {
      forall i, j | 0 <= i < j < |rest|
        ensures rest[i].currency != rest[j].currency
      {
        assert rest[i] == ents[i + 1] && rest[j] == ents[j + 1];
      }
    }
    forall x, y | x in r1 && y in rest
      ensures x.currency != y.currency
    {
      var j :| 0 <= j < |rest| && rest[j] == y;
      assert ents[j + 1] == y && y in ents;
      if x != e {
        assert x in rows;
      }
    }
  }

  /** Every saved currency ends up stored with the value of its last entity. */
  lemma {:induction false} SavedAllKeepsLast(rows: seq<ExchangeRate>, ents: seq<ExchangeRate>, i: int)
    requires Keyed(rows)
    requires 0 <= i < |ents|
    requires forall j :: i < j < |ents| ==> ents[j].currency != ents[i].currency
    ensures ents[i] in SavedAll(rows, ents)
    decreases |ents|
  {
    SavedRows(rows, ents[0]);
    if i == 0 {
      assert forall j :: 0 <= j < |ents[1..]| ==> ents[1..][j] == ents[j + 1];
      SavedAllKeepsSaved(Saved(rows, ents[0]), ents[1..], ents[0]);
    } else {
      assert forall j :: i - 1 < j < |ents[1..]| ==> ents[1..][j] == ents[j + 1];
      SavedAllKeepsLast(Saved(rows, ents[0]), ents[1..], i - 1);
    }
  }

  /** A stored row survives the saving of entities of other currencies. */
  lemma {:induction false} SavedAllKeepsSaved(rows: seq<ExchangeRate>, ents: seq<ExchangeRate>, x: ExchangeRate)
    requires Keyed(rows) && x in rows
    requires forall j :: 0 <= j < |ents| ==> ents[j].currency != x.currency
    ensures x in SavedAll(rows, ents)
    decreases |ents|
  {
    if ents != [] {
      SavedRows(rows, ents[0]);
      assert forall j :: 0 <= j < |ents[1..]| ==> ents[1..][j] == ents[j + 1];
      SavedAllKeepsSaved(Saved(rows, ents[0]), ents[1..], x);
    }
  }

  /** The positions of the rates not named "RUB", in increasing order. */
  function NonRubPositions(rates: seq<ExchangeRateDto>): (ix: seq<nat>)
    ensures forall j :: 0 <= j < |ix| ==> ix[j] < |rates| && rates[ix[j]].name != "RUB"
    ensures forall j, k :: 0 <= j < k < |ix| ==> ix[j] < ix[k]
    ensures forall i :: 0 <= i < |rates| && rates[i].name != "RUB" ==> i in ix
  {
    if rates == [] then []
    else
      var n := |rates| - 1;
      var ix := NonRubPositions(rates[..n]);
      assert forall i :: 0 <= i < n ==> rates[..n][i] == rates[i];
      if rates[n].name == "RUB" then ix else ix + [n]
  }

  /** The position of the first rate not named "RUB" whose name is no
      constant, or -1 when every such rate converts. */
  function FirstUnknown(rates: seq<ExchangeRateDto>): (b: int)
    ensures -1 <= b < |rates|
    ensures b == -1 <==> forall i :: 0 <= i < |rates| && rates[i].name != "RUB" ==> FromDto(rates[i]).Some?
    ensures b >= 0 ==> rates[b].name != "RUB" && FromDto(rates[b]).None?
                       && forall k :: 0 <= k < b && rates[k].name != "RUB" ==> FromDto(rates[k]).Some?
  {
    if rates == [] then -1
    else
      var n := |rates| - 1;
      var b := FirstUnknown(rates[..n]);
      assert forall i :: 0 <= i < n ==> rates[..n][i] == rates[i];
      if b >= 0 then b
      else if rates[n].name != "RUB" && FromDto(rates[n]).None? then n
      else -1
  }

  /** The entities updateRates stores: the rates not named "RUB", each
      converted, in input order; the stream stops (valueOf throws) at the
      first of them whose name is no constant, and that name is reported. */
  function Entities(rates: seq<ExchangeRateDto>): (r: Reply<seq<ExchangeRate>>)
    ensures r.Thrown? <==> FirstUnknown(rates) >= 0
    ensures r.Thrown? ==> r.message == NoEnumConstant(rates[FirstUnknown(rates)].name)
    ensures r.Value? ==> var ix := NonRubPositions(rates);
                         |r.value| == |ix|
                         && forall j :: 0 <= j < |ix| ==> FromDto(rates[ix[j]]) == Some(r.value[j])
  {
    if rates == [] then Value([])
    else
      var n := |rates| - 1;
      var init := Entities(rates[..n]);
      assert forall i :: 0 <= i < n ==> rates[..n][i] == rates[i];
      if init.Thrown? then init
      else if rates[n].name == "RUB" then
        assert NonRubPositions(rates) == NonRubPositions(rates[..n]);
        init
      else match FromDto(rates[n])
        case None => Thrown(NoEnumConstant(rates[n].name))
        case Some(e) =>
          assert NonRubPositions(rates) == NonRubPositions(rates[..n]) + [n];
          Value(init.value + [e])
  }

  /** No converted rate is RUB: its name was not "RUB". */
  lemma {:induction false} EntitiesHaveNoRub(rates: seq<ExchangeRateDto>)
    requires Entities(rates).Value?
    ensures forall e :: e in Entities(rates).value ==> e.currency != RUB
  {
    var ents := Entities(rates).value;
    var ix := NonRubPositions(rates);
    forall e | e in ents
      ensures e.currency != RUB
    {
      var j :| 0 <= j < |ents| && ents[j] == e;
      assert FromDto(rates[ix[j]]) == Some(e);
    }
  }

  /** The base entry getAllRates starts with. */
  function BaseRub(): ExchangeRateDto {
    ExchangeRateDto(Title(RUB), Name(RUB), 1.0)
  }

  /** The rate table: what the repository holds. */
  class ExchangeRepository {
    var rows: seq<ExchangeRate>

    constructor (rows: seq<ExchangeRate>)
      requires Keyed(rows)
      ensures this.rows == rows
    {
      this.rows := rows;
    }

    method DeleteAll()
      modifies this
      ensures rows == []
    {
      rows := [];
    }

    method SaveAll(ents: seq<ExchangeRate>)
      requires Keyed(rows)
      modifies this
      ensures rows == SavedAll(old(rows), ents)
    {
      var i := 0;
      while i < |ents|
        invariant 0 <= i <= |ents|
        invariant Keyed(rows)
        invariant SavedAll(rows, ents[i..]) == SavedAll(old(rows), ents)
      {
        assert ents[i..][1..] == ents[i + 1..];
        SavedRows(rows, ents[i]);
        rows := Saved(rows, ents[i]);
        i := i + 1;
      }
    }
  }

  class ExchangeService {
    const repo: ExchangeRepository

    constructor (repo: ExchangeRepository)
      ensures this.repo == repo
    {
      this.repo := repo;
    }

    /** getAllRates: RUB at rate 1, then every stored rate in table order. */
    function GetAllRates(): (out: seq<ExchangeRateDto>)
      reads repo
      ensures |out| == |repo.rows| + 1
      ensures out[0] == ExchangeRateDto("Рубль", "RUB", 1.0)
      ensures forall i :: 0 <= i < |repo.rows| ==> out[i + 1] == ToDto(repo.rows[i])
    {
      [BaseRub()] + seq(|repo.rows|, i requires 0 <= i < |repo.rows| reads repo => ToDto(repo.rows[i]))
    }

    /** updateRates: delete everything, then save the converted non-RUB
        rates. A name that is no constant raises, and the transaction rolls
        the deletion back. */
    method UpdateRates(rates: seq<ExchangeRateDto>) returns (o: Outcome<()>)
      requires Keyed(repo.rows)
      modifies repo
      ensures match Entities(rates)
              case Thrown(m) => o == Raised(m) && repo.rows == old(repo.rows)
              case Value(ents) => o == Returned(()) && repo.rows == SavedAll([], ents)
    {
      var before := repo.rows;
      repo.DeleteAll();
      var ents := Entities(rates);
      if ents.Thrown? {
        repo.rows := before;  // rollback
        return Raised(ents.message);
      }
      repo.SaveAll(ents.value);
      o := Returned(());
    }
  }

  /** After an update the table holds no RUB row, so the rates read back
      carry RUB exactly once, at their head. */
  lemma {:induction false} RubOnlyAtHead(s: ExchangeService, rates: seq<ExchangeRateDto>)
    requires Entities(rates).Value? && s.repo.rows == SavedAll([], Entities(rates).value)
    ensures forall i :: 0 <= i < |s.GetAllRates()| ==> (s.GetAllRates()[i].name == "RUB" <==> i == 0)
  {
    var ents := Entities(rates).value;
    EntitiesHaveNoRub(rates);
    NoRubSaved([], ents);
    forall i | 1 <= i < |s.GetAllRates()|
      ensures s.GetAllRates()[i].name != "RUB"
    {
      assert s.repo.rows[i - 1] in s.repo.rows;
      ValueOfName(s.repo.rows[i - 1].currency);
    }
  }

  /** Saving entities none of which is RUB into a table without RUB adds no
      RUB row. */
  lemma {:induction false} NoRubSaved(rows: seq<ExchangeRate>, ents: seq<ExchangeRate>)
    requires Keyed(rows)
    requires forall e :: e in rows ==> e.currency != RUB
    requires forall e :: e in ents ==> e.currency != RUB
    ensures forall e :: e in SavedAll(rows, ents) ==> e.currency != RUB
    decreases |ents|
  {
    if ents != [] {
      assert ents[0] in ents;
      assert forall e :: e in ents[1..] ==> e in ents;
      NoRubSaved(Saved(rows, ents[0]), ents[1..]);
    }
  }

  /** Every row of a saveAll comes from the table, untouched by the saved
      entities, or is the last entity saved for its currency. */
  lemma {:induction false} SavedAllFrom(rows: seq<ExchangeRate>, ents: seq<ExchangeRate>, x: ExchangeRate)
    requires Keyed(rows)
    requires x in SavedAll(rows, ents)
    ensures (x in rows && forall j :: 0 <= j < |ents| ==> ents[j].currency != x.currency)
            || exists i :: 0 <= i < |ents| && ents[i] == x && forall j :: i < j < |ents| ==> ents[j].currency != x.currency
    decreases |ents|
  {
    if ents != [] {
      SavedRows(rows, ents[0]);
      var rest := ents[1..];
      assert forall j :: 0 <= j < |rest| ==> rest[j] == ents[j + 1];
      SavedAllFrom(Saved(rows, ents[0]), rest, x);
      if x in Saved(rows, ents[0]) && forall j :: 0 <= j < |rest| ==> rest[j].currency != x.currency {
        if x == ents[0] {
          assert forall j :: 0 < j < |ents| ==> ents[j].currency != x.currency;
        }
      } else {
        var i :| 0 <= i < |rest| && rest[i] == x && forall j :: i < j < |rest| ==> rest[j].currency != x.currency;
        assert ents[i + 1] == x;
      }
    }
  }

  /** No later rate carries the name of rate i. */
  predicate LastNamed(rates: seq<ExchangeRateDto>, i: int)
    requires 0 <= i < |rates|
  {
    forall j :: i < j < |rates| ==> rates[j].name != rates[i].name
  }

  /** The last rate given for a name other than "RUB" is converted and
      stored. */
  lemma {:induction false} LastRateStored(rates: seq<ExchangeRateDto>, i: int)
    requires Entities(rates).Value?
    requires 0 <= i < |rates| && rates[i].name != "RUB" && LastNamed(rates, i)
    ensures FromDto(rates[i]).Some? && FromDto(rates[i]).value in SavedAll([], Entities(rates).value)
  {
    var ents := Entities(rates).value;
    var ix := NonRubPositions(rates);
    var j :| 0 <= j < |ix| && ix[j] == i;
    forall k | j < k < |ents|
      ensures ents[k].currency != ents[j].currency
    {
      SameCurrencySameName(rates[ix[j]], rates[ix[k]], ents[j], ents[k]);
    }
    SavedAllKeepsLast([], ents, j);
  }

  /** An entity whose currency no later entity has came from the last rate
      given with its name. */
  lemma {:induction false} LastEntityLastRate(rates: seq<ExchangeRateDto>, j: int)
    requires Entities(rates).Value?
    requires 0 <= j < |Entities(rates).value|
    requires forall k :: j < k < |Entities(rates).value| ==>
               Entities(rates).value[k].currency != Entities(rates).value[j].currency
    ensures NonRubPositions(rates)[j] < |rates| && LastNamed(rates, NonRubPositions(rates)[j])
  {
    var ents := Entities(rates).value;
    var ix := NonRubPositions(rates);
    var i := ix[j];
    forall m | i < m < |rates|
      ensures rates[m].name != rates[i].name
    {
      if rates[m].name != "RUB" {
        var k :| 0 <= k < |ix| && ix[k] == m;
        assert j < k;
        SameCurrencySameName(rates[i], rates[m], ents[j], ents[k]);
      }
    }
  }

  /** Every stored row is the conversion of the last rate given for its
      name, which is not "RUB". */
  lemma {:induction false} RowFromLastRate(rates: seq<ExchangeRateDto>, x: ExchangeRate)
    requires Entities(rates).Value?
    requires x in SavedAll([], Entities(rates).value)
    ensures exists i :: 0 <= i < |rates| && rates[i].name != "RUB" && LastNamed(rates, i) && FromDto(rates[i]) == Some(x)
  {
    var ents := Entities(rates).value;
    assert exists j :: 0 <= j < |ents| && ents[j] == x && forall k :: j < k < |ents| ==> ents[k].currency != x.currency by {
      SavedAllFrom([], ents, x);
    }
    var j :| 0 <= j < |ents| && ents[j] == x && forall k :: j < k < |ents| ==> ents[k].currency != x.currency;
    LastEntityLastRate(rates, j);
    var i := NonRubPositions(rates)[j];
    assert 0 <= i < |rates| && rates[i].name != "RUB" && LastNamed(rates, i) && FromDto(rates[i]) == Some(x);
  }

  /** What updateRates leaves in the table, for every input it accepts:
      the last rate given for each name other than "RUB", converted by
      valueOf with its value, and nothing else, each currency once. */
  lemma {:induction false} UpdatedTable(rates: seq<ExchangeRateDto>)
    requires Entities(rates).Value?
    ensures var rows := SavedAll([], Entities(rates).value);
            Keyed(rows)
            && (forall i :: 0 <= i < |rates| && rates[i].name != "RUB" && LastNamed(rates, i) ==>
                  FromDto(rates[i]).Some? && FromDto(rates[i]).value in rows)
            && (forall x :: x in rows ==>
                  exists i :: 0 <= i < |rates| && rates[i].name != "RUB" && LastNamed(rates, i) && FromDto(rates[i]) == Some(x))
  {
    forall i | 0 <= i < |rates| && rates[i].name != "RUB" && LastNamed(rates, i)
      ensures FromDto(rates[i]).Some? && FromDto(rates[i]).value in SavedAll([], Entities(rates).value)
    {
      LastRateStored(rates, i);
    }
    forall x | x in SavedAll([], Entities(rates).value)
      ensures exists i :: 0 <= i < |rates| && rates[i].name != "RUB" && LastNamed(rates, i) && FromDto(rates[i]) == Some(x)
    {
      RowFromLastRate(rates, x);
    }
  }

  /** When every name is given once, the table holds the converted non-RUB
      rates exactly, in input order. */
  lemma {:induction false} UpdatedTableInOrder(rates: seq<ExchangeRateDto>)
    requires Entities(rates).Value?
    requires forall i, j :: 0 <= i < j < |rates| ==> rates[i].name != rates[j].name
    ensures SavedAll([], Entities(rates).value) == Entities(rates).value
  {
    var ents := Entities(rates).value;
    var ix := NonRubPositions(rates);
    forall j, k | 0 <= j < k < |ents|
      ensures ents[j].currency != ents[k].currency
    {
      SameCurrencySameName(rates[ix[j]], rates[ix[k]], ents[j], ents[k]);
    }
    SavedAllDistinct([], ents);
  }

  /** Two converted rates share a currency exactly when they share a name. */
  lemma SameCurrencySameName(a: ExchangeRateDto, b: ExchangeRateDto, ea: ExchangeRate, eb: ExchangeRate)
    requires FromDto(a) == Some(ea) && FromDto(b) == Some(eb)
    ensures ea.currency == eb.currency <==> a.name == b.name
  {
    CodesDistinct(ea.currency, eb.currency);
  }

  /** The test's update: RUB is dropped, USD and CNY are stored in order. */
  lemma SavesOnlyNonRub()
    ensures var rates := [ExchangeRateDto("Рубль", "RUB", 1.0), ExchangeRateDto("Доллар", "USD", 94.0),
                          ExchangeRateDto("Юань", "CNY", 13.2)];
            Entities(rates) == Value([ExchangeRate(USD, 94.0), ExchangeRate(CNY, 13.2)])
            && SavedAll([], Entities(rates).value) == [ExchangeRate(USD, 94.0), ExchangeRate(CNY, 13.2)]
  {
    SampleEntities();
    SampleSaved();
  }

  /** USD and CNY saved into an empty table are stored as they are. */
  lemma SampleSaved()
    ensures SavedAll([], [ExchangeRate(USD, 94.0), ExchangeRate(CNY, 13.2)])
            == [ExchangeRate(USD, 94.0), ExchangeRate(CNY, 13.2)]
  {
    SavedAllDistinct([], [ExchangeRate(USD, 94.0), ExchangeRate(CNY, 13.2)]);
  }

  /** The RUB entry is skipped and USD converted. */
  lemma RubThenDollar()
    ensures Entities([ExchangeRateDto("Рубль", "RUB", 1.0), ExchangeRateDto("Доллар", "USD", 94.0)])
            == Value([ExchangeRate(USD, 94.0)])
  {
    var rub, usd := ExchangeRateDto("Рубль", "RUB", 1.0), ExchangeRateDto("Доллар", "USD", 94.0);
    ValueOfName(USD);
    assert FromDto(usd) == Some(ExchangeRate(USD, 94.0));
    assert [rub, usd][..1] == [rub] && [rub][..0] == [];
    assert Entities([rub]) == Value([]);
    assert [rub, usd][1] == usd;
    assert [] + [ExchangeRate(USD, 94.0)] == [ExchangeRate(USD, 94.0)];
  }

  /** CNY is converted after them. */
  lemma SampleEntities()
    ensures Entities([ExchangeRateDto("Рубль", "RUB", 1.0), ExchangeRateDto("Доллар", "USD", 94.0),
                      ExchangeRateDto("Юань", "CNY", 13.2)])
            == Value([ExchangeRate(USD, 94.0), ExchangeRate(CNY, 13.2)])
  {
    var rub, usd := ExchangeRateDto("Рубль", "RUB", 1.0), ExchangeRateDto("Доллар", "USD", 94.0);
    var cny := ExchangeRateDto("Юань", "CNY", 13.2);
    RubThenDollar();
    ValueOfName(CNY);
    assert FromDto(cny) == Some(ExchangeRate(CNY, 13.2));
    assert [rub, usd, cny][..2] == [rub, usd] && [rub, usd, cny][2] == cny;
    assert [ExchangeRate(USD, 94.0)] + [ExchangeRate(CNY, 13.2)] == [ExchangeRate(USD, 94.0), ExchangeRate(CNY, 13.2)];
  }
}
