TestResult.DisplayName,TestResult.Outcome,TestResult.Duration,TestResult.ResourceCount,RandomSeed
Sorting.RangeCount (correctness) (assertion batch 1),Passed,00:00:00.3436937,352133,0
Sorting.RangeCount (correctness) (assertion batch 3),Passed,00:00:00.1732108,9251,0
Sorting.RangeCount (correctness) (assertion batch 2),Passed,00:00:00.1299362,6983,0
Sorting.RangeCount (correctness) (assertion batch 4),Passed,00:00:00.0351867,9866,0
Sorting.RangeCount (correctness) (assertion batch 5),Passed,00:00:00.0269203,9061,0
Sorting.RangeCount (correctness) (assertion batch 7),Passed,00:00:00.0174786,17381,0
Sorting.RangeCount (correctness) (assertion batch 8),Passed,00:00:00.0162606,19156,0
Sorting.RangeCount (correctness) (assertion batch 6),Passed,00:00:00.0123203,9325,0
Sorting.RangeCount (correctness) (assertion batch 9),Passed,00:00:00.0121023,22158,0
