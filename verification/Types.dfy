/** The trading vocabulary the other components share. */
module Types {
  datatype Side = Long | Short

  datatype Tif = Alo | Ioc | Gtc

  type Cloid = nat

  type Symbol = string
}
