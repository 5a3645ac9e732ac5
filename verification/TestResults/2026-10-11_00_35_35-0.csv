TestResult.DisplayName,TestResult.Outcome,TestResult.Duration,TestResult.ResourceCount,RandomSeed
PathSegments.TravelledToProjection (correctness),Failed,00:00:01.7286037,2065786,0
PathSegments.TravelledToProjection (well-formedness),Passed,00:00:00.3164600,67150,0
