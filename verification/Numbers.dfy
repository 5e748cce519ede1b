/**
 Small functions of two numbers.
 */
module Numbers {

  function Least(m: nat, n: nat): nat {
    if m < n then m else n
  }

  function Distance(m: nat, n: nat): nat {
    if m < n then n - m else m - n
  }
}
