/** The Currency enum shared by every service: three constants, each with a
    code and a display title. */
module Currencies {
  import opened Wrappers

  datatype Currency = RUB | USD | CNY

  /** Enum.name(): the constant's identifier. */
  function Name(c: Currency): string {
    match c
    case RUB => "RUB"
    case USD => "USD"
    case CNY => "CNY"
  }

  /** getCode(): the code given to the constructor. */
  function Code(c: Currency): (code: string)
    ensures code == Name(c)
    ensures |code| == 3
  {
    match c
    case RUB => "RUB"
    case USD => "USD"
    case CNY => "CNY"
  }

  /** getTitle(): the Russian display name. */
  function Title(c: Currency): string {
    match c
    case RUB => "Рубль"
    case USD => "Доллар"
    case CNY => "Юань"
  }

  /** Currency.values(): every constant once, in declaration order. */
  function Values(): (vs: seq<Currency>)
    ensures |vs| == 3 && vs[0] == RUB && vs[1] == USD && vs[2] == CNY
    ensures forall c: Currency :: c in vs
    ensures forall i, j :: 0 <= i < j < |vs| ==> vs[i] != vs[j]
  {
    EveryConstantListed();
    [RUB, USD, CNY]
  }

  lemma EveryConstantListed()
    ensures forall c: Currency :: c in [RUB, USD, CNY]
  {
    forall c: Currency ensures c in [RUB, USD, CNY] {
      match c
      case RUB => assert [RUB, USD, CNY][0] == c;
      case USD => assert [RUB, USD, CNY][1] == c;
      case CNY => assert [RUB, USD, CNY][2] == c;
    }
  }

  /** Currency.valueOf(name): the constant with exactly that name; an
      unknown name (None here) makes Java throw IllegalArgumentException. */
  function ValueOf(name: string): (r: Option<Currency>) {
    NamedIn(name, Values())
  }

  /** The message valueOf throws for a name that is no constant. */
  function NoEnumConstant(name: string): string {
    "No enum constant com.example.clients.customer.Currency." + name
  }

  /** The first of `cs` whose name is `name`. */
  function NamedIn(name: string, cs: seq<Currency>): (r: Option<Currency>)
    ensures r.Some? ==> r.value in cs && Name(r.value) == name
    ensures r.None? ==> forall c :: c in cs ==> Name(c) != name
  {
    if cs == [] then None
    else if Name(cs[0]) == name then Some(cs[0])
    else NamedIn(name, cs[1..])
  }

  /** valueOf finds the constant whose name is `name`, and fails exactly on
      the names of no constant. */
  lemma ValueOfMatchesName(name: string)
    ensures forall c: Currency :: ValueOf(name) == Some(c) <==> Name(c) == name
    ensures ValueOf(name) == None <==> name !in {"RUB", "USD", "CNY"}
  {
    EveryConstantListed();
  }

  /** Codes identify constants: two constants with one code are the same. */
  lemma CodesDistinct(a: Currency, b: Currency)
    ensures Code(a) == Code(b) <==> a == b
  {
  }

  /** valueOf inverts name(). */
  lemma ValueOfName(c: Currency)
    ensures ValueOf(Name(c)) == Some(c)
  {
  }
}
